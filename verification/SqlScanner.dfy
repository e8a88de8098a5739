/** The character-level scanners of the in-memory SQL engine: splitting outside brackets and quotes,
    stripping outer brackets, and cutting assignments. SQL reaches them with every run of whitespace
    collapsed to one space, so a space is the only whitespace and a delimiter is matched exactly. */
module SqlScanner {
  import opened Sequences

  // ---------------------------------------------------------------------------
  // Text
  // ---------------------------------------------------------------------------

  function TrimLeft(s: string): (r: string)
    ensures |r| <= |s|
  {
    if s != "" && s[0] == ' ' then TrimLeft(s[1..]) else s
  }

  function TrimRight(s: string): (r: string)
    ensures |r| <= |s|
  {
    if s != "" && s[|s| - 1] == ' ' then TrimRight(s[..|s| - 1]) else s
  }

  function Trim(s: string): (r: string)
    ensures |r| <= |s|
  {
    TrimRight(TrimLeft(s))
  }

  predicate Trimmed(s: string) {
    s != "" && s[0] != ' ' && s[|s| - 1] != ' '
  }

  function Upper(c: char): char {
    if 'a' <= c <= 'z' then c - 'a' + 'A' else c
  }

  /** The text begins with the delimiter, letters compared without regard to case. */
  predicate Match(s: string, d: string) {
    |d| <= |s| && forall k :: 0 <= k < |d| ==> Upper(s[k]) == d[k]
  }

  /** A single comma, or a capitalised word with one space on either side. */
  predicate Delimiter(d: string) {
    && d != ""
    && (|d| == 1 ==> d[0] == ',')
    && (|d| > 1 ==> d[0] == ' ' && d[|d| - 1] == ' ')
    && (forall k :: 0 <= k < |d| ==> Upper(d[k]) == d[k])
    && (forall k :: 0 < k < |d| - 1 ==> d[k] != ' ' && d[k] != ',' && d[k] != ')')
  }

  const COMMA := ","
  const OR := " OR "
  const AND := " AND "

  lemma Delimiters()
    ensures Delimiter(COMMA) && Delimiter(OR) && Delimiter(AND)
  {
  }

  // ---------------------------------------------------------------------------
  // The scanner's state
  // ---------------------------------------------------------------------------

  /** Bracket depth, whether inside quotes, and whether the last character was a backslash. */
  datatype Scan = Scan(depth: int, inQuote: bool, escaped: bool)

  const TOP := Scan(0, false, false)

  function Advance(st: Scan, c: char): Scan {
    if c == '\'' && !st.escaped then Scan(st.depth, !st.inQuote, false)
    else if c == '(' && !st.inQuote then Scan(st.depth + 1, false, false)
    else if c == ')' && !st.inQuote then Scan(st.depth - 1, false, false)
    else Scan(st.depth, st.inQuote, c == '\\')
  }

  predicate AtTop(st: Scan) {
    !st.inQuote && st.depth == 0
  }

  function Run(st: Scan, s: string): Scan
    decreases |s|
  {
    if s == "" then st else Run(Advance(st, s[0]), s[1..])
  }

  /** A character that the scanner takes for itself before it looks for the delimiter. */
  predicate Syntax(st: Scan, c: char) {
    (c == '\'' && !st.escaped) || ((c == '(' || c == ')') && !st.inQuote)
  }

  // ---------------------------------------------------------------------------
  // Splitting
  // ---------------------------------------------------------------------------

  /** What is still to be split off, given the piece `cur` gathered so far. Pieces are trimmed; a blank
      last piece is dropped. */
  function SplitFrom(s: string, d: string, cur: string, st: Scan): (parts: seq<string>)
    requires d != ""
    ensures forall p :: p in parts ==> |p| <= |cur| + |s|
    ensures |parts| >= 2 ==> forall p :: p in parts ==> |p| + |d| <= |cur| + |s|
    decreases |s|
  {
    if s == "" then if Trim(cur) != "" then [Trim(cur)] else []
    else if !Syntax(st, s[0]) && AtTop(st) && Match(s, d)
    then [Trim(cur)] + SplitFrom(s[|d|..], d, "", Scan(0, false, false))
    else SplitFrom(s[1..], d, cur + [s[0]], Advance(st, s[0]))
  }

  function Split(s: string, d: string): (parts: seq<string>)
    requires d != ""
    ensures |parts| >= 2 ==> forall p :: p in parts ==> |p| < |s|
  {
    SplitFrom(s, d, "", TOP)
  }

  /** Here the scanner cuts: at top level, at a delimiter. */
  predicate Cuts(s: string, d: string, st: Scan) {
    s != "" && !Syntax(st, s[0]) && AtTop(st) && Match(s, d)
  }

  lemma DelimiterNotEmpty(d: string)
    requires Delimiter(d)
    ensures d != ""
  {
  }

  /** A loop at position `i` has split off `parts` and gathered `cur`. */
  ghost predicate Halfway(str: string, d: string, parts: seq<string>, i: nat, cur: string, st: Scan)
    requires d != "" && i <= |str|
  {
    Split(str, d) == parts + SplitFrom(str[i..], d, cur, st)
  }

  lemma HalfwayStarts(str: string, d: string)
    requires d != ""
    ensures Halfway(str, d, [], 0, "", TOP)
  {
    assert str[0..] == str;
  }

  lemma HalfwayEnds(str: string, d: string, parts: seq<string>, cur: string, st: Scan)
    requires d != "" && Halfway(str, d, parts, |str|, cur, st)
    ensures Split(str, d) == if Trim(cur) != "" then parts + [Trim(cur)] else parts
  {
  }

  /** One step of a splitting loop: the character is gathered, or a piece is finished. */
  lemma HalfwayStep(str: string, d: string, parts: seq<string>, i: nat, cur: string, st: Scan)
    requires d != "" && i < |str| && Halfway(str, d, parts, i, cur, st)
    ensures !Cuts(str[i..], d, st) ==> Halfway(str, d, parts, i + 1, cur + [str[i]], Advance(st, str[i]))
    ensures Cuts(str[i..], d, st) ==> i + |d| <= |str| && Halfway(str, d, parts + [Trim(cur)], i + |d|, "", TOP)
  {
    assert str[i..][0] == str[i] && str[i..][1..] == str[i + 1..];
    if Cuts(str[i..], d, st) {
      assert str[i..][|d|..] == str[i + |d|..];
      ConcatAssoc(parts, [Trim(cur)], SplitFrom(str[i + |d|..], d, "", TOP));
    }
  }

  lemma CutsAtComma(str: string, i: nat, st: Scan)
    requires i < |str|
    ensures Cuts(str[i..], COMMA, st) <==> str[i] == ',' && AtTop(st)
  {
  }

  /** The character before the position reached after a delimiter is not a backslash. */
  lemma AfterDelimiter(str: string, d: string, i: nat, st: Scan)
    requires Delimiter(d) && i < |str| && Cuts(str[i..], d, st)
    ensures i + |d| <= |str| && str[i + |d| - 1] != '\\'
  {
    assert Upper(str[i..][|d| - 1]) == d[|d| - 1];
  }

  function Here(str: string, i: nat, inParens: int, inQuote: bool): Scan
    requires i <= |str|
  {
    Scan(inParens, inQuote, i > 0 && str[i - 1] == '\\')
  }

  method SplitOutsideParens(str: string, d: string) returns (parts: seq<string>)
    requires Delimiter(d)
    ensures parts == Split(str, d)
  {
    hide Halfway, Split, SplitFrom, Match, Trim, Delimiter;
    parts := [];
    var cur := "";
    var inParens := 0;
    var inQuote := false;
    var i := 0;
    DelimiterNotEmpty(d);
    HalfwayStarts(str, d);
    while i < |str|
      invariant 0 <= i <= |str|
      invariant Halfway(str, d, parts, i, cur, Here(str, i, inParens, inQuote))
    {
      var c := str[i];
      HalfwayStep(str, d, parts, i, cur, Here(str, i, inParens, inQuote));
      if c == '\'' && (i == 0 || str[i - 1] != '\\') {
        inQuote := !inQuote;
        cur := cur + [c];
      } else if c == '(' && !inQuote {
        inParens := inParens + 1;
        cur := cur + [c];
      } else if c == ')' && !inQuote {
        inParens := inParens - 1;
        cur := cur + [c];
      } else if !inQuote && inParens == 0 {
        if Match(str[i..], d) {
          AfterDelimiter(str, d, i, Here(str, i, inParens, inQuote));
          parts := parts + [Trim(cur)];
          cur := "";
          i := i + |d| - 1;
        } else {
          cur := cur + [c];
        }
      } else {
        cur := cur + [c];
      }
      i := i + 1;
    }
    HalfwayEnds(str, d, parts, cur, Here(str, i, inParens, inQuote));
    if Trim(cur) != "" {
      parts := parts + [Trim(cur)];
    }
  }

  /** The loop that cuts the body of a VALUES list. */
  method SplitValues(valuesBody: string) returns (rawVals: seq<string>)
    ensures rawVals == Split(valuesBody, COMMA)
  {
    hide Halfway, Split, SplitFrom, Match, Trim, Cuts;
    rawVals := [];
    var curVal := "";
    var inParens := 0;
    var inQuote := false;
    HalfwayStarts(valuesBody, COMMA);
    for i := 0 to |valuesBody|
      invariant Halfway(valuesBody, COMMA, rawVals, i, curVal, Here(valuesBody, i, inParens, inQuote))
    {
      var c := valuesBody[i];
      HalfwayStep(valuesBody, COMMA, rawVals, i, curVal, Here(valuesBody, i, inParens, inQuote));
      CutsAtComma(valuesBody, i, Here(valuesBody, i, inParens, inQuote));
      if c == '\'' && (i == 0 || valuesBody[i - 1] != '\\') {
        inQuote := !inQuote;
        curVal := curVal + [c];
      } else if c == '(' && !inQuote {
        inParens := inParens + 1;
        curVal := curVal + [c];
      } else if c == ')' && !inQuote {
        inParens := inParens - 1;
        curVal := curVal + [c];
      } else if c == ',' && !inQuote && inParens == 0 {
        rawVals := rawVals + [Trim(curVal)];
        curVal := "";
      } else {
        curVal := curVal + [c];
      }
    }
    HalfwayEnds(valuesBody, COMMA, rawVals, curVal, Here(valuesBody, |valuesBody|, inParens, inQuote));
    if Trim(curVal) != "" {
      rawVals := rawVals + [Trim(curVal)];
    }
  }

  // ---------------------------------------------------------------------------
  // Assignments
  // ---------------------------------------------------------------------------

  datatype Assignment = Assignment(col: string, valRaw: string)

  function IndexOf(s: string, c: char): (i: int)
    ensures -1 <= i < |s|
    ensures i >= 0 ==> s[i] == c && c !in s[..i]
    ensures i == -1 ==> c !in s
  {
    if s == "" then -1
    else if s[0] == c then 0
    else var k := IndexOf(s[1..], c); if k == -1 then -1 else k + 1
  }

  /** A piece cut at its first equals sign; a piece without one is no assignment. */
  function Cut(piece: string): seq<Assignment> {
    var eq := IndexOf(piece, '=');
    if eq == -1 then [] else [Assignment(Trim(piece[..eq]), Trim(piece[eq + 1..]))]
  }

  function CutAll(pieces: seq<string>): seq<Assignment> {
    if pieces == [] then [] else Cut(pieces[0]) + CutAll(pieces[1..])
  }

  lemma CutAllNothing()
    ensures CutAll([]) == []
  {
  }

  lemma {:induction false} CutAllSnoc(pieces: seq<string>, piece: string)
    ensures CutAll(pieces + [Trim(piece)]) == CutAll(pieces) + Cut(piece)
    decreases |pieces|
  {
    if pieces == [] {
      CutTrim(piece);
      assert [] + [Trim(piece)] == [Trim(piece)];
    } else {
      CutAllSnoc(pieces[1..], piece);
      assert (pieces + [Trim(piece)])[1..] == pieces[1..] + [Trim(piece)];
      ConcatAssoc(Cut(pieces[0]), CutAll(pieces[1..]), Cut(piece));
    }
  }

  method ParseAssignments(setClause: string) returns (assignments: seq<Assignment>)
    ensures assignments == CutAll(Split(setClause, COMMA))
  {
    hide Halfway, Split, SplitFrom, Match, Trim, Cuts, CutAll;
    assignments := [];
    var cur := "";
    var inParens := 0;
    var inQuote := false;
    ghost var parts: seq<string> := [];
    HalfwayStarts(setClause, COMMA);
    CutAllNothing();
    for i := 0 to |setClause|
      invariant Halfway(setClause, COMMA, parts, i, cur, Here(setClause, i, inParens, inQuote))
      invariant assignments == CutAll(parts)
    {
      var c := setClause[i];
      HalfwayStep(setClause, COMMA, parts, i, cur, Here(setClause, i, inParens, inQuote));
      CutsAtComma(setClause, i, Here(setClause, i, inParens, inQuote));
      if c == '\'' && (i == 0 || setClause[i - 1] != '\\') {
        inQuote := !inQuote;
        cur := cur + [c];
      } else if c == '(' && !inQuote {
        inParens := inParens + 1;
        cur := cur + [c];
      } else if c == ')' && !inQuote {
        inParens := inParens - 1;
        cur := cur + [c];
      } else if c == ',' && !inQuote && inParens == 0 {
        CutAllSnoc(parts, cur);
        parts := parts + [Trim(cur)];
        var eqIdx := IndexOf(cur, '=');
        if eqIdx != -1 {
          assignments := assignments + [Assignment(Trim(cur[..eqIdx]), Trim(cur[eqIdx + 1..]))];
        }
        cur := "";
      } else {
        cur := cur + [c];
      }
    }
    HalfwayEnds(setClause, COMMA, parts, cur, Here(setClause, |setClause|, inParens, inQuote));
    CutAllSnoc(parts, cur);
    if Trim(cur) != "" {
      var eqIdx := IndexOf(cur, '=');
      if eqIdx != -1 {
        assignments := assignments + [Assignment(Trim(cur[..eqIdx]), Trim(cur[eqIdx + 1..]))];
      }
    }
  }

  // ---------------------------------------------------------------------------
  // Trimming facts
  // ---------------------------------------------------------------------------

  lemma TrimOfTrimmed(s: string)
    ensures Trimmed(s) ==> Trim(s) == s
    ensures Trim("") == ""
  {
  }

  lemma {:induction false} TrimLeftAppend(s: string, t: string)
    requires TrimLeft(s) != ""
    ensures TrimLeft(s + t) == TrimLeft(s) + t
    decreases |s|
  {
    if s[0] == ' ' {
      TrimLeftAppend(s[1..], t);
      assert (s + t)[1..] == s[1..] + t;
    }
  }

  lemma {:induction false} TrimLeftBlank(s: string)
    requires TrimLeft(s) == ""
    ensures TrimLeft(s + " ") == ""
    decreases |s|
  {
    if s != "" {
      TrimLeftBlank(s[1..]);
      assert (s + " ")[1..] == s[1..] + " ";
    } else {
      assert s + " " == " " && " "[1..] == "";
    }
  }

  /** A space added at either end is trimmed away. */
  lemma TrimSpace(s: string)
    ensures Trim(" " + s) == Trim(s) && Trim(s + " ") == Trim(s)
  {
    assert (" " + s)[1..] == s;
    if TrimLeft(s) == "" {
      TrimLeftBlank(s);
    } else {
      TrimLeftAppend(s, " ");
      assert (TrimLeft(s) + " ")[..|TrimLeft(s)|] == TrimLeft(s);
    }
  }

  lemma {:induction false} IndexOfAppend(s: string, c: char, t: string)
    requires c !in t
    ensures IndexOf(s + t, c) == IndexOf(s, c)
    decreases |s|
  {
    if s == "" {
      assert s + t == t;
    } else {
      IndexOfAppend(s[1..], c, t);
      assert (s + t)[1..] == s[1..] + t;
    }
  }

  lemma CutSpaceLeft(s: string)
    ensures Cut(" " + s) == Cut(s)
  {
    var eq := IndexOf(s, '=');
    assert (" " + s)[1..] == s;
    if eq != -1 {
      TrimSpace(s[..eq]);
      assert (" " + s)[..eq + 1] == " " + s[..eq];
      assert (" " + s)[eq + 2..] == s[eq + 1..];
    }
  }

  lemma CutSpaceRight(s: string)
    ensures Cut(s + " ") == Cut(s)
  {
    var eq := IndexOf(s, '=');
    IndexOfAppend(s, '=', " ");
    if eq != -1 {
      TrimSpace(s[eq + 1..]);
      assert (s + " ")[..eq] == s[..eq];
      assert (s + " ")[eq + 1..] == s[eq + 1..] + " ";
    }
  }

  lemma {:induction false} CutTrimLeft(s: string)
    ensures Cut(TrimLeft(s)) == Cut(s)
    decreases |s|
  {
    if s != "" && s[0] == ' ' {
      hide Cut;
      CutTrimLeft(s[1..]);
      CutSpaceLeft(s[1..]);
      assert s == " " + s[1..];
    }
  }

  lemma {:induction false} CutTrimRight(s: string)
    ensures Cut(TrimRight(s)) == Cut(s)
    decreases |s|
  {
    if s != "" && s[|s| - 1] == ' ' {
      hide Cut;
      var init := s[..|s| - 1];
      assert s == init + " ";
      CutTrimRight(init);
      CutSpaceRight(init);
    }
  }

  /** Cutting a piece before or after trimming it gives the same assignment. */
  lemma CutTrim(s: string)
    ensures Cut(Trim(s)) == Cut(s)
    ensures Trim(s) == "" ==> Cut(s) == []
    ensures CutAll([Trim(s)]) == Cut(s)
  {
    CutTrimLeft(s);
    CutTrimRight(TrimLeft(s));
    assert [Trim(s)][1..] == [];
  }

  // ---------------------------------------------------------------------------
  // Splitting a join
  // ---------------------------------------------------------------------------

  function Join(parts: seq<string>, d: string): string {
    if parts == [] then ""
    else if |parts| == 1 then parts[0]
    else parts[0] + d + Join(parts[1..], d)
  }

  /** Scanning `s`, with `tail` behind it, meets no delimiter at top level. */
  predicate Quiet(s: string, tail: string, st: Scan, d: string) {
    s == "" || (!(AtTop(st) && Match(s + tail, d)) && Quiet(s[1..], tail, Advance(st, s[0]), d))
  }

  /** A quiet stretch is taken whole into the current piece. */
  lemma {:induction false} PassThrough(s: string, rest: string, d: string, cur: string, st: Scan)
    requires d != "" && Quiet(s, rest, st, d)
    ensures SplitFrom(s + rest, d, cur, st) == SplitFrom(rest, d, cur + s, Run(st, s))
    decreases |s|
  {
    if s == "" {
      assert s + rest == rest && cur + s == cur;
    } else {
      assert (s + rest)[0] == s[0] && (s + rest)[1..] == s[1..] + rest;
      PassThrough(s[1..], rest, d, cur + [s[0]], Advance(st, s[0]));
      assert cur + [s[0]] + s[1..] == cur + s;
    }
  }

  /** What may follow a piece: the end, a space, a comma or a closing bracket. */
  predicate Follows(rest: string) {
    rest == "" || rest[0] == ' ' || rest[0] == ',' || rest[0] == ')'
  }

  lemma {:induction false} QuietTail(s: string, rest: string, st: Scan, d: string)
    requires Delimiter(d) && Follows(rest) && Quiet(s, " ", st, d)
    ensures Quiet(s, rest, st, d)
    decreases |s|
  {
    if s != "" {
      QuietTail(s[1..], rest, Advance(st, s[0]), d);
      if Match(s + rest, d) {
        var n := |s|;
        if n >= |d| {
          assert forall k :: 0 <= k < |d| ==> (s + rest)[k] == (s + " ")[k];
        } else {
          assert (s + rest)[n] == rest[0] && Upper(rest[0]) == d[n];
          assert forall k :: 0 <= k < n ==> (s + rest)[k] == (s + " ")[k];
          assert Match(s + " ", d);
        }
      }
    }
  }

  lemma {:induction false} QuietConcat(a: string, b: string, tail: string, st: Scan, d: string)
    requires Quiet(a, b + tail, st, d) && Quiet(b, tail, Run(st, a), d)
    ensures Quiet(a + b, tail, st, d)
    decreases |a|
  {
    if a == "" {
      assert a + b == b;
    } else {
      assert (a + b)[0] == a[0] && (a + b)[1..] == a[1..] + b;
      assert a + (b + tail) == (a + b) + tail;
      QuietConcat(a[1..], b, tail, Advance(st, a[0]), d);
    }
  }

  lemma {:induction false} RunConcat(st: Scan, a: string, b: string)
    ensures Run(st, a + b) == Run(Run(st, a), b)
    decreases |a|
  {
    if a == "" {
      assert a + b == b;
    } else {
      assert (a + b)[0] == a[0] && (a + b)[1..] == a[1..] + b;
      RunConcat(Advance(st, a[0]), a[1..], b);
    }
  }

  /** A piece the splitter can give back: trimmed, balanced, and without the delimiter at top level even
      when a space stands on either side of it. */
  predicate Piece(p: string, d: string) {
    Trimmed(p) && AtTop(Run(TOP, p)) && Quiet(" " + p, " ", TOP, d)
  }

  lemma PieceQuiet(p: string, rest: string, d: string)
    requires Delimiter(d) && Piece(p, d) && Follows(rest)
    ensures Quiet(p, rest, TOP, d)
  {
    assert (" " + p)[0] == ' ' && (" " + p)[1..] == p;
    assert Advance(TOP, ' ') == TOP;
    QuietTail(p, rest, TOP, d);
  }

  /** At top level a delimiter cuts. */
  lemma CutAtDelimiter(d: string, rest: string, cur: string, st: Scan)
    requires Delimiter(d) && AtTop(st)
    ensures SplitFrom(d + rest, d, cur, st) == [Trim(cur)] + SplitFrom(rest, d, "", TOP)
    ensures Follows(d + rest)
  {
    hide Trim, SplitFrom;
    DelimiterMatches(d, rest);
    SplitFromCuts(d + rest, d, cur, st);
    assert (d + rest)[|d|..] == rest;
  }

  lemma DelimiterMatches(d: string, rest: string)
    requires Delimiter(d)
    ensures Match(d + rest, d) && Follows(d + rest) && forall st :: !Syntax(st, (d + rest)[0])
  {
    assert (d + rest)[0] == d[0];
  }

  lemma SplitFromCuts(s: string, d: string, cur: string, st: Scan)
    requires d != "" && Cuts(s, d, st)
    ensures SplitFrom(s, d, cur, st) == [Trim(cur)] + SplitFrom(s[|d|..], d, "", TOP)
  {
  }

  lemma TakeFirst(p: string, rest: string, d: string)
    requires Delimiter(d) && Piece(p, d)
    ensures SplitFrom(p + d + rest, d, "", TOP) == [p] + SplitFrom(rest, d, "", TOP)
  {
    var st := Run(TOP, p);
    assert "" + p == p && p + d + rest == p + (d + rest);
    CutAtDelimiter(d, rest, p, st);
    PieceQuiet(p, d + rest, d);
    PassThrough(p, d + rest, d, "", TOP);
    TrimOfTrimmed(p);
  }

  lemma TakeOnly(p: string, d: string)
    requires Delimiter(d) && Piece(p, d)
    ensures SplitFrom(p, d, "", TOP) == [p]
  {
    assert "" + p == p && p + "" == p;
    PieceQuiet(p, "", d);
    PassThrough(p, "", d, "", TOP);
    TrimOfTrimmed(p);
  }

  /** MAIN: splitting a join of pieces gives the pieces back. */
  lemma {:induction false} SplitJoin(parts: seq<string>, d: string)
    requires Delimiter(d) && parts != [] && forall p :: p in parts ==> Piece(p, d)
    ensures Split(Join(parts, d), d) == parts
    decreases |parts|
  {
    hide SplitFrom, Piece, Delimiter;
    assert parts[0] in parts;
    if |parts| == 1 {
      TakeOnly(parts[0], d);
    } else {
      var rest := parts[1..];
      forall q | q in rest ensures Piece(q, d) {
        assert q in parts;
      }
      SplitJoin(rest, d);
      TakeFirst(parts[0], Join(rest, d), d);
      assert parts == [parts[0]] + rest;
    }
  }

  // ---------------------------------------------------------------------------
  // What protects a delimiter, and how it may be written
  // ---------------------------------------------------------------------------

  /** Scanning from inside quotes or brackets, nothing is cut. */
  lemma {:induction false} InsideKept(x: string, st: Scan, tail: string, d: string)
    requires st.inQuote || st.depth > 0
    requires '\'' !in x && '\\' !in x && (!st.inQuote ==> '(' !in x && ')' !in x) && !st.escaped
    ensures Quiet(x, tail, st, d) && Run(st, x) == st
    decreases |x|
  {
    if x != "" {
      assert x[0] in x && forall c :: c in x[1..] ==> c in x;
      InsideKept(x[1..], st, tail, d);
    }
  }

  /** One character in front, at which nothing is cut. */
  lemma QuietFirst(c: char, x: string, tail: string, st: Scan, d: string)
    requires Quiet(x, tail, Advance(st, c), d) && (d != "" ==> Upper(c) != d[0])
    requires d != ""
    ensures Quiet([c] + x, tail, st, d) && Run(st, [c] + x) == Run(Advance(st, c), x)
  {
    assert ([c] + x)[0] == c && ([c] + x)[1..] == x;
  }

  lemma RunOne(st: Scan, c: char, tail: string, d: string)
    requires st.inQuote || st.depth > 0
    ensures Run(st, [c]) == Advance(st, c) && Quiet([c], tail, st, d)
  {
    assert [c][1..] == [];
  }

  lemma QuotedKept(x: string, tail: string, d: string)
    requires Delimiter(d) && '\'' !in x && '\\' !in x
    ensures Quiet("'" + (x + "'"), tail, TOP, d) && Run(TOP, "'" + (x + "'")) == TOP
  {
    var quoted := Scan(0, true, false);
    InsideKept(x, quoted, "'" + tail, d);
    RunOne(quoted, '\'', tail, d);
    assert "'" == ['\''] && Advance(TOP, '\'') == quoted;
    QuietConcat(x, "'", tail, quoted, d);
    RunConcat(quoted, x, "'");
    QuietFirst('\'', x + "'", tail, TOP, d);
  }

  lemma BracketedKept(x: string, tail: string, d: string)
    requires Delimiter(d) && '\'' !in x && '\\' !in x && '(' !in x && ')' !in x
    ensures Quiet("(" + (x + ")"), tail, TOP, d) && Run(TOP, "(" + (x + ")")) == TOP
  {
    var bracketed := Scan(1, false, false);
    InsideKept(x, bracketed, ")" + tail, d);
    RunOne(bracketed, ')', tail, d);
    assert ")" == [')'] && Advance(TOP, '(') == bracketed;
    QuietConcat(x, ")", tail, bracketed, d);
    RunConcat(bracketed, x, ")");
    QuietFirst('(', x + ")", tail, TOP, d);
  }

  /** A quote behind a backslash does not end a quotation; the one after it does. */
  lemma EscapedKept(x: string)
    requires '\'' !in x && '\\' !in x
    ensures Run(TOP, "'" + (x + "\\''")) == TOP
  {
    var quoted, end := Scan(0, true, false), "\\''";
    InsideKept(x, quoted, "", COMMA);
    RunConcat(quoted, x, end);
    assert end[0] == '\\' && end[1..] == "''" && "''"[1..] == "'" && "'"[1..] == "";
    assert Advance(quoted, '\\') == Scan(0, true, true) && Advance(Scan(0, true, true), '\'') == quoted;
    assert Run(quoted, end) == Run(Scan(0, true, true), "''") == Run(quoted, "'") == TOP;
    assert ("'" + (x + end))[0] == '\'' && ("'" + (x + end))[1..] == x + end;
  }

  /** MAIN: a delimiter in quotes does not cut, and a quote behind a backslash does not end them; a delimiter in
      brackets does not cut. */
  lemma ProtectedKept(x: string, tail: string, d: string)
    requires Delimiter(d) && '\'' !in x && '\\' !in x
    ensures Quiet("'" + (x + "'"), tail, TOP, d) && Run(TOP, "'" + (x + "'")) == TOP
    ensures Run(TOP, "'" + (x + "\\''")) == TOP
    ensures '(' !in x && ')' !in x ==> Quiet("(" + (x + ")"), tail, TOP, d) && Run(TOP, "(" + (x + ")")) == TOP
  {
    hide Quiet, Run;
    QuotedKept(x, tail, d);
    EscapedKept(x);
    if '(' !in x && ')' !in x {
      BracketedKept(x, tail, d);
    }
  }

  /** MAIN: a word that joins conditions is found in small letters as well as in capitals. */
  lemma SmallLetters(p: string, rest: string)
    requires Piece(p, AND) && Piece(p, OR)
    ensures SplitFrom(p + " and " + rest, AND, "", TOP) == [p] + SplitFrom(rest, AND, "", TOP)
    ensures SplitFrom(p + " or " + rest, OR, "", TOP) == [p] + SplitFrom(rest, OR, "", TOP)
  {
    Delimiters();
    TakeFirstAs(p, " and ", rest, AND);
    TakeFirstAs(p, " or ", rest, OR);
  }

  lemma TakeFirstAs(p: string, word: string, rest: string, d: string)
    requires Delimiter(d) && Piece(p, d) && |word| == |d| && word != "" && word[0] == ' '
    requires forall k :: 0 <= k < |d| ==> Upper(word[k]) == d[k]
    ensures SplitFrom(p + word + rest, d, "", TOP) == [p] + SplitFrom(rest, d, "", TOP)
  {
    hide SplitFrom, Trim;
    var st := Run(TOP, p);
    assert "" + p == p && p + word + rest == p + (word + rest);
    assert (word + rest)[0] == ' ' && (word + rest)[|d|..] == rest;
    PieceQuiet(p, word + rest, d);
    PassThrough(p, word + rest, d, "", TOP);
    SplitFromCuts(word + rest, d, p, st);
    TrimOfTrimmed(p);
  }
}
