/**
 * Reading the columns of a `CREATE TABLE` statement: balancing the parentheses of its
 * body and splitting the body at top-level commas.
 */
module DdlBody {
  import opened Collections
  import opened Utf8Identifier

  // ----- parenthesis depth ----------------------------------------------------------------

  function Delta(c: char): int {
    if c == '(' then 1 else if c == ')' then -1 else 0
  }

  /** Opening minus closing parentheses. */
  function Balance(s: string): int {
    if s == "" then 0 else Balance(s[..|s| - 1]) + Delta(s[|s| - 1])
  }

  lemma {:induction false} BalanceSnoc(s: string, i: nat, j: nat)
    requires i <= j < |s|
    ensures Balance(s[i..j + 1]) == Balance(s[i..j]) + Delta(s[j])
  {
    assert s[i..j + 1][..j - i] == s[i..j];
  }

  lemma {:induction false} BalanceAppend(a: string, b: string)
    ensures Balance(a + b) == Balance(a) + Balance(b)
  {
    if b == "" {
      assert a + b == a;
    } else {
      assert (a + b)[..|a + b| - 1] == a + b[..|b| - 1];
      BalanceAppend(a, b[..|b| - 1]);
    }
  }

  /** Parentheses match up: the depth never drops below the start and ends there. */
  ghost predicate Nested(s: string) {
    Balance(s) == 0 && forall k | 0 <= k <= |s| :: Balance(s[..k]) >= 0
  }

  /** A comma outside all parentheses. */
  predicate IsTopComma(s: string, k: nat) {
    k < |s| && s[k] == ',' && Balance(s[..k]) == 0
  }

  ghost predicate HasNoTopComma(s: string) {
    forall k: nat | k < |s| :: !IsTopComma(s, k)
  }

  // ----- readBalancedBody -------------------------------------------------------------------

  /** The scan that starts at `open` comes back to depth zero on the parenthesis at `i`. */
  ghost predicate ClosesAt(sql: string, open: nat, i: nat) {
    open <= i < |sql| && sql[i] == ')' && Balance(sql[open..i + 1]) == 0
  }

  ghost predicate FirstClose(sql: string, open: nat, i: nat) {
    ClosesAt(sql, open, i) && forall j: nat | j < i :: !ClosesAt(sql, open, j)
  }

  method ReadBalancedBody(sql: string, open: nat) returns (r: Option<string>)
    ensures r.None? <==> forall i: nat :: !ClosesAt(sql, open, i)
    ensures r.Some? ==> exists i: nat :: FirstClose(sql, open, i) && open < i && r.value == sql[open + 1..i]
  {
    var depth := 0;
    var i := open;
    while i < |sql|
      invariant open <= i && (open <= |sql| ==> i <= |sql| && depth == Balance(sql[open..i]))
      invariant forall j: nat | j < i :: !ClosesAt(sql, open, j)
    {
      BalanceSnoc(sql, open, i);
      if sql[i] == '(' {
        depth := depth + 1;
      } else if sql[i] == ')' {
        depth := depth - 1;
        if depth == 0 {
          assert FirstClose(sql, open, i);
          assert i != open by {
            assert sql[open..open + 1] == [sql[open]];
          }
          return Some(sql[open + 1..i]);
        }
      }
      i := i + 1;
    }
    return None;
  }

  /** A parenthesised, well-nested body is read back whatever surrounds it. */
  lemma {:induction false} BodyIsFound(before: string, body: string, after: string)
    requires Nested(body)
    ensures FirstClose(before + "(" + body + ")" + after, |before|, |before| + 1 + |body|)
  {
    var sql, open, close := before + "(" + body + ")" + after, |before|, |before| + 1 + |body|;
    forall j: nat | j < close
      ensures !ClosesAt(sql, open, j)
    {
      if open <= j {
        var k := j - open;
        assert sql[open..j + 1] == "(" + body[..k];
        BalanceAppend("(", body[..k]);
      }
    }
    assert sql[open..close + 1] == "(" + body + ")";
    BalanceAppend("(", body);
    BalanceAppend("(" + body, ")");
  }

  // ----- splitting at top-level commas ----------------------------------------------------------

  /** Index of the first top-level comma at or after `k`, or the length. */
  function TopCommaFrom(s: string, k: nat): (r: nat)
    requires k <= |s|
    ensures k <= r <= |s|
    ensures r < |s| ==> IsTopComma(s, r)
    ensures forall j: nat | k <= j < r :: !IsTopComma(s, j)
    decreases |s| - k
  {
    if k == |s| || IsTopComma(s, k) then k else TopCommaFrom(s, k + 1)
  }

  function Segments(body: string): (r: seq<string>)
    ensures r != []
  {
    var k := TopCommaFrom(body, 0);
    if k == |body| then [body] else [body[..k]] + Segments(body[k + 1..])
  }

  function JoinCommas(segments: seq<string>): string {
    if segments == [] then ""
    else if |segments| == 1 then segments[0]
    else segments[0] + "," + JoinCommas(segments[1..])
  }

  /** Splitting loses nothing. */
  lemma {:induction false} JoinOfSegments(body: string)
    ensures JoinCommas(Segments(body)) == body
    decreases |body|
  {
    var k := TopCommaFrom(body, 0);
    if k < |body| {
      JoinOfSegments(body[k + 1..]);
      assert Segments(body)[1..] == Segments(body[k + 1..]);
      assert body == body[..k] + "," + body[k + 1..];
    }
  }

  lemma {:induction false} FirstSegment(head: string, tail: string)
    requires Balance(head) == 0 && HasNoTopComma(head)
    ensures TopCommaFrom(head, 0) == |head|
    ensures TopCommaFrom(head + "," + tail, 0) == |head|
  {
    var s := head + "," + tail;
    forall k: nat | k < |head|
      ensures !IsTopComma(s, k)
    {
      assert s[..k] == head[..k];
      assert !IsTopComma(head, k);
    }
    assert s[..|head|] == head;
    assert IsTopComma(s, |head|);
  }

  /** Balanced segments without top-level commas come back in order. */
  lemma {:induction false} SegmentsOfJoin(segments: seq<string>)
    requires segments != []
    requires forall i | 0 <= i < |segments| :: Balance(segments[i]) == 0 && HasNoTopComma(segments[i])
    ensures Segments(JoinCommas(segments)) == segments
  {
    if |segments| == 1 {
      FirstSegment(segments[0], "");
    } else {
      var tail := JoinCommas(segments[1..]);
      FirstSegment(segments[0], tail);
      SegmentsOfJoin(segments[1..]);
      var s := segments[0] + "," + tail;
      assert s[..|segments[0]|] == segments[0] && s[|segments[0]| + 1..] == tail;
    }
  }

  lemma {:induction false} JoinIsNested(segments: seq<string>)
    requires forall i | 0 <= i < |segments| :: Nested(segments[i])
    ensures Nested(JoinCommas(segments))
  {
    if |segments| > 1 {
      JoinIsNested(segments[1..]);
      NestedComma(segments[0], JoinCommas(segments[1..]));
    } else if segments == [] {
      assert forall k | 0 <= k <= 0 :: ""[..k] == "";
    }
  }

  lemma {:induction false} NestedComma(head: string, tail: string)
    requires Nested(head) && Nested(tail)
    ensures Nested(head + "," + tail)
  {
    var s := head + "," + tail;
    BalanceAppend(head, ",");
    BalanceAppend(head + ",", tail);
    forall k | 0 <= k <= |s|
      ensures Balance(s[..k]) >= 0
    {
      if k <= |head| {
        assert s[..k] == head[..k];
      } else {
        var j := k - |head| - 1;
        assert s[..k] == head + "," + tail[..j];
        BalanceAppend(head + ",", tail[..j]);
      }
    }
  }

  // ----- columns --------------------------------------------------------------------------------

  /** White space that `String.prototype.trim` removes. */
  predicate IsSpace(c: char) {
    || '\t' <= c <= '\r' || c == ' ' || c == '\U{00A0}' || c == '\U{1680}' || '\U{2000}' <= c <= '\U{200A}'
    || c == '\U{2028}' || c == '\U{2029}' || c == '\U{202F}' || c == '\U{205F}' || c == '\U{3000}' || c == '\U{FEFF}'
  }

  function TrimStart(s: string): string {
    if s != "" && IsSpace(s[0]) then TrimStart(s[1..]) else s
  }

  function TrimEnd(s: string): string {
    if s != "" && IsSpace(s[|s| - 1]) then TrimEnd(s[..|s| - 1]) else s
  }

  function Trim(s: string): string {
    TrimEnd(TrimStart(s))
  }

  predicate IsTrimmed(s: string) {
    s != "" ==> !IsSpace(s[0]) && !IsSpace(s[|s| - 1])
  }

  predicate IsBlank(s: string) {
    forall i | 0 <= i < |s| :: IsSpace(s[i])
  }

  lemma {:induction false} TrimStartOfPadded(before: string, s: string)
    requires IsBlank(before) && (s != "" ==> !IsSpace(s[0]))
    ensures TrimStart(before + s) == s
  {
    if before != "" {
      assert (before + s)[1..] == before[1..] + s;
      TrimStartOfPadded(before[1..], s);
    } else {
      assert before + s == s;
    }
  }

  lemma {:induction false} TrimEndOfPadded(s: string, after: string)
    requires IsBlank(after) && (s != "" ==> !IsSpace(s[|s| - 1]))
    ensures TrimEnd(s + after) == s
  {
    if after != "" {
      assert (s + after)[..|s + after| - 1] == s + after[..|after| - 1];
      TrimEndOfPadded(s, after[..|after| - 1]);
    } else {
      assert s + after == s;
    }
  }

  /** Trimming takes away exactly the white space around a trimmed text. */
  lemma {:induction false} TrimOfPadded(before: string, s: string, after: string)
    requires IsBlank(before) && IsBlank(after) && s != "" && IsTrimmed(s)
    ensures Trim(before + s + after) == s
  {
    ConcatAssoc(before, s, after);
    TrimStartOfPadded(before, s + after);
    TrimEndOfPadded(s, after);
  }

  /** Lower case as far as it can reach the keywords' letters; U+212A is the Kelvin sign. */
  function Lower(c: char): char {
    if 'A' <= c <= 'Z' then (c as int + 32) as char else if c == '\U{212A}' then 'k' else c
  }

  predicate StartsWithKeyword(segment: string, keyword: string) {
    |segment| >= |keyword| && forall i | 0 <= i < |keyword| :: Lower(segment[i]) == keyword[i]
  }

  predicate IsConstraint(segment: string) {
    || StartsWithKeyword(segment, "foreign key")
    || StartsWithKeyword(segment, "primary key")
    || StartsWithKeyword(segment, "constraint")
    || StartsWithKeyword(segment, "unique")
    || StartsWithKeyword(segment, "check")
  }

  /** A segment is a constraint exactly if it starts with one of the five keywords, in any case. */
  lemma {:induction false} ConstraintByKeyword(segment: string)
    ensures IsConstraint(segment) <==>
            exists k :: k in ["foreign key", "primary key", "constraint", "unique", "check"] && StartsWithKeyword(segment, k)
  {
  }

  /** The case of a keyword does not matter, nor what follows it. */
  lemma {:induction false} KeywordInAnyCase(written: string, keyword: string, rest: string)
    requires |written| == |keyword|
    requires forall i | 0 <= i < |keyword| ::
               written[i] == keyword[i] || ('a' <= keyword[i] <= 'z' && written[i] as int == keyword[i] as int - 32)
    requires forall i | 0 <= i < |keyword| :: 'a' <= keyword[i] <= 'z' || keyword[i] == ' '
    ensures StartsWithKeyword(written + rest, keyword)
  {
  }

  predicate IsIdentifierQuote(c: char) {
    c == '`' || c == '"'
  }

  /** The name in a leading backtick- or double-quoted identifier, which must not be empty. */
  function QuotedName(segment: string): Option<string> {
    if segment == "" || !IsIdentifierQuote(segment[0]) then None
    else
      var close := FirstIndex(segment, segment[0], 1);
      if close == |segment| || close == 1 then None else Some(segment[1..close])
  }

  /** The column a trimmed body segment declares. */
  function ColumnOf(segment: string): Option<string> {
    if segment == "" || IsConstraint(segment) then None
    else match QuotedName(segment)
         case None => None
         case Some(name) => Some(Truncate(name))
  }

  function Columns(segments: seq<string>): seq<string> {
    if segments == [] then []
    else
      var column := ColumnOf(Trim(segments[|segments| - 1]));
      Columns(segments[..|segments| - 1]) + if column.Some? then [column.value] else []
  }

  /** A segment that starts with a quoted name declares that column, shortened to 63 bytes. */
  lemma {:induction false} QuotedSegmentIsColumn(quote: char, name: string, rest: string)
    requires IsIdentifierQuote(quote) && name != "" && quote !in name
    ensures ColumnOf([quote] + name + [quote] + rest) == Some(Truncate(name))
  {
    var segment := [quote] + name + [quote] + rest;
    var close := FirstIndex(segment, quote, 1);
    assert forall i | 1 <= i < 1 + |name| :: segment[i] == name[i - 1];
    assert segment[1 + |name|] == quote;
    assert close == 1 + |name|;
    assert segment[1..close] == name;
    assert Lower(segment[0]) == quote;
  }

  lemma {:induction false} ColumnsSnoc(segments: seq<string>, last: string)
    ensures Columns(segments + [last])
            == Columns(segments) + if ColumnOf(Trim(last)).Some? then [ColumnOf(Trim(last)).value] else []
  {
    assert (segments + [last])[..|segments|] == segments;
  }

  /** The segment that ends at `i`, given that no top-level comma lies in between. */
  lemma {:induction false} SegmentEnds(body: string, start: nat, i: nat)
    requires start <= i <= |body|
    requires forall k: nat | k < i - start :: !IsTopComma(body[start..], k)
    requires i == |body| || IsTopComma(body[start..], i - start)
    ensures Segments(body[start..])
            == if i == |body| then [body[start..i]] else [body[start..i]] + Segments(body[i + 1..])
  {
    var rest := body[start..];
    assert TopCommaFrom(rest, 0) == i - start;
    assert rest[..i - start] == body[start..i];
    if i < |body| {
      assert rest[i - start + 1..] == body[i + 1..];
    } else {
      assert rest == body[start..i];
    }
  }

  /** Everything before `start` has been cut into `segments`; `start..i` is still open at `depth`. */
  ghost predicate Scanned(body: string, i: nat, start: nat, depth: int, segments: seq<string>) {
    if i > |body| then Segments(body) == segments
    else
      && start <= i
      && depth == Balance(body[start..i])
      && (forall k: nat | k < i - start :: !IsTopComma(body[start..], k))
      && Segments(body) == segments + Segments(body[start..])
  }

  lemma {:induction false} ScanContinues(body: string, i: nat, start: nat, depth: int, segments: seq<string>)
    requires i < |body| && Scanned(body, i, start, depth, segments)
    requires !(body[i] == ',' && depth + Delta(body[i]) == 0)
    ensures Scanned(body, i + 1, start, depth + Delta(body[i]), segments)
  {
    BalanceSnoc(body, start, i);
    assert body[start..][..i - start] == body[start..i] && body[start..][i - start] == body[i];
  }

  lemma {:induction false} ScanCuts(body: string, i: nat, start: nat, depth: int, segments: seq<string>)
    requires i <= |body| && Scanned(body, i, start, depth, segments)
    requires i < |body| ==> body[i] == ',' && depth == 0
    ensures Scanned(body, i + 1, i + 1, 0, segments + [body[start..i]])
  {
    assert body[start..][..i - start] == body[start..i];
    SegmentEnds(body, start, i);
    if i < |body| {
      assert body[i + 1..i + 1] == "";
      ConcatAssoc(segments, [body[start..i]], Segments(body[i + 1..]));
    }
  }

  lemma {:induction false} ScanStarts(body: string)
    ensures Scanned(body, 0, 0, 0, [])
  {
    assert body[0..] == body && body[0..0] == "";
  }

  lemma {:induction false} ScanMoves(body: string, i: nat, start: nat, before: int, segments: seq<string>, depth: int)
    requires i <= |body| && Scanned(body, i, start, before, segments)
    requires i < |body| ==> depth == before + Delta(body[i])
    ensures start <= i
    ensures if i == |body| || (body[i] == ',' && depth == 0)
            then Scanned(body, i + 1, i + 1, 0, segments + [body[start..i]])
            else Scanned(body, i + 1, start, depth, segments)
  {
    if i == |body| || (body[i] == ',' && depth == 0) {
      ScanCuts(body, i, start, before, segments);
    } else {
      ScanContinues(body, i, start, before, segments);
    }
  }

  method SegmentColumn(text: string) returns (column: Option<string>)
    ensures column == ColumnOf(Trim(text))
  {
    var segment := Trim(text);
    if segment == "" || IsConstraint(segment) {
      return None;
    }
    var name := QuotedName(segment);
    if name.None? {
      return None;
    }
    var normalized := NormalizeSqlIdentifier(name.value);
    column := Some(normalized);
  }

  method PushColumn(columns: seq<string>, text: string, ghost segments: seq<string>) returns (more: seq<string>)
    requires columns == Columns(segments)
    ensures more == Columns(segments + [text])
  {
    ColumnsSnoc(segments, text);
    var column := SegmentColumn(text);
    more := if column.Some? then columns + [column.value] else columns;
  }

  method ExtractColumnsFromBody(body: string) returns (columns: seq<string>)
    ensures columns == Columns(Segments(body))
  {
    columns := [];
    var depth, segmentStart := 0, 0;
    ghost var segments: seq<string> := [];
    ScanStarts(body);
    for i := 0 to |body| + 1
      invariant columns == Columns(segments)
      invariant Scanned(body, i, segmentStart, depth, segments)
    {
      ghost var before := depth;
      if i < |body| && body[i] == '(' {
        depth := depth + 1;
      } else if i < |body| && body[i] == ')' {
        depth := depth - 1;
      }
      ScanMoves(body, i, segmentStart, before, segments, depth);
      var atBoundary := i == |body| || (body[i] == ',' && depth == 0);
      if atBoundary {
        columns := PushColumn(columns, body[segmentStart..i], segments);
        segments := segments + [body[segmentStart..i]];
        segmentStart := i + 1;
        depth := 0;
      }
    }
  }

  // ----- tables made of definitions ------------------------------------------------------------------

  /** A column definition or a table-level constraint, with the white space around it. */
  datatype Definition =
    | Column(before: string, quote: char, name: string, rest: string, after: string)
    | Constraint(before: string, text: string, after: string)

  function Core(d: Definition): string {
    match d
    case Column(_, quote, name, rest, _) => [quote] + name + [quote] + rest
    case Constraint(_, text, _) => text
  }

  ghost predicate AreDefinitions(definitions: seq<Definition>) {
    forall i | 0 <= i < |definitions| :: IsDefinition(definitions[i])
  }

  ghost predicate IsDefinition(d: Definition) {
    && IsBlank(d.before) && IsBlank(d.after) && Core(d) != "" && IsTrimmed(Core(d))
    && match d
       case Column(_, quote, name, _, _) => IsIdentifierQuote(quote) && name != "" && quote !in name
       case Constraint(_, text, _) => IsConstraint(text)
  }

  function DefinitionText(d: Definition): string {
    d.before + Core(d) + d.after
  }

  function DefinitionTexts(definitions: seq<Definition>): seq<string> {
    if definitions == [] then []
    else DefinitionTexts(definitions[..|definitions| - 1]) + [DefinitionText(definitions[|definitions| - 1])]
  }

  /** The names of the columns, in order, each shortened to 63 bytes. */
  function ColumnNames(definitions: seq<Definition>): seq<string> {
    if definitions == [] then []
    else
      var last := definitions[|definitions| - 1];
      ColumnNames(definitions[..|definitions| - 1]) + if last.Column? then [Truncate(last.name)] else []
  }

  lemma {:induction false} ColumnOfDefinition(d: Definition)
    requires IsDefinition(d)
    ensures ColumnOf(Trim(DefinitionText(d))) == if d.Column? then Some(Truncate(d.name)) else None
  {
    TrimOfPadded(d.before, Core(d), d.after);
    if d.Column? {
      QuotedSegmentIsColumn(d.quote, d.name, d.rest);
    }
  }

  /** The columns of a list of definitions are exactly its truncated quoted names. */
  lemma {:induction false} ColumnsOfDefinitions(definitions: seq<Definition>)
    requires AreDefinitions(definitions)
    ensures Columns(DefinitionTexts(definitions)) == ColumnNames(definitions)
  {
    if definitions != [] {
      var front, last := definitions[..|definitions| - 1], definitions[|definitions| - 1];
      ColumnsOfDefinitions(front);
      ColumnsSnoc(DefinitionTexts(front), DefinitionText(last));
      ColumnOfDefinition(last);
    }
  }

  // ----- from statement to columns -----------------------------------------------------------------

  /** What a table body may be made of. */
  ghost predicate IsSegment(s: string) {
    Nested(s) && HasNoTopComma(s)
  }

  /**
   * The body of the table whose parenthesis opens at `open`, cut into columns.  If the
   * text there is a parenthesised list of segments, the columns are those of the segments
   * in order, whatever follows; for column definitions and constraints, these are exactly
   * the names of the columns.
   */
  method ReadTableColumns(sql: string, open: nat) returns (r: Option<seq<string>>)
    ensures r.None? <==> forall i: nat :: !ClosesAt(sql, open, i)
    ensures r.Some? ==> exists i: nat ::
                          FirstClose(sql, open, i) && open < i && r.value == Columns(Segments(sql[open + 1..i]))
    ensures forall segments, after | IsTableText(sql, open, segments, after) :: r == Some(Columns(segments))
    ensures forall definitions, after |
              AreDefinitions(definitions) && IsTableText(sql, open, DefinitionTexts(definitions), after) ::
              r == Some(ColumnNames(definitions))
  {
    var body := ReadBalancedBody(sql, open);
    if body.None? {
      r := None;
    } else {
      var columns := ExtractColumnsFromBody(body.value);
      r := Some(columns);
      ghost var i: nat :| FirstClose(sql, open, i) && open < i && body.value == sql[open + 1..i];
      assert r.value == Columns(Segments(sql[open + 1..i]));
    }
    forall segments, after | IsTableText(sql, open, segments, after)
      ensures r == Some(Columns(segments))
    {
      TableBodyIsRead(sql, open, segments, after, body);
    }
    forall definitions, after | AreDefinitions(definitions) && IsTableText(sql, open, DefinitionTexts(definitions), after)
      ensures r == Some(ColumnNames(definitions))
    {
      ColumnsOfDefinitions(definitions);
    }
  }

  /** What the balanced scan returns at a table is its list of segments. */
  lemma {:induction false} TableBodyIsRead(sql: string, open: nat, segments: seq<string>, after: string, body: Option<string>)
    requires IsTableText(sql, open, segments, after)
    requires body.None? ==> forall i: nat :: !ClosesAt(sql, open, i)
    requires body.Some? ==> exists i: nat :: FirstClose(sql, open, i) && open < i && body.value == sql[open + 1..i]
    ensures body.Some? && Segments(body.value) == segments
  {
    BodyOfTable(sql, open, segments, after);
    var expected := open + 1 + |JoinCommas(segments)|;
    assert ClosesAt(sql, open, expected);
    var close: nat :| FirstClose(sql, open, close) && open < close && body.value == sql[open + 1..close];
    assert close == expected;
  }

  /** At `open` stands a parenthesised list of segments, followed by anything. */
  ghost predicate IsTableText(sql: string, open: nat, segments: seq<string>, after: string) {
    && open < |sql| && segments != [] && (forall i | 0 <= i < |segments| :: IsSegment(segments[i]))
    && sql[open..] == "(" + JoinCommas(segments) + ")" + after
  }

  lemma {:induction false} BodyOfTable(sql: string, open: nat, segments: seq<string>, after: string)
    requires IsTableText(sql, open, segments, after)
    ensures var close := open + 1 + |JoinCommas(segments)|;
            FirstClose(sql, open, close) && sql[open + 1..close] == JoinCommas(segments)
    ensures Segments(JoinCommas(segments)) == segments
  {
    var body := JoinCommas(segments);
    JoinIsNested(segments);
    SegmentsOfJoin(segments);
    BodyIsFound(sql[..open], body, after);
    TableTextShape(sql, open, body, after);
  }

  lemma {:induction false} TableTextShape(sql: string, open: nat, body: string, after: string)
    requires open < |sql| && sql[open..] == "(" + body + ")" + after
    ensures sql == sql[..open] + "(" + body + ")" + after
    ensures open + 1 + |body| < |sql| && sql[open + 1..open + 1 + |body|] == body
  {
    assert sql == sql[..open] + sql[open..];
    assert sql[open + 1..open + 1 + |body|] == sql[open..][1..1 + |body|];
  }
}
