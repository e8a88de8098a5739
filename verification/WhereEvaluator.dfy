/** The WHERE evaluator of the in-memory SQL engine. What a single predicate means for a row is left to
    the function `eval`; how predicates combine is what the evaluator decides. */
module WhereEvaluator {
  import opened Sequences
  import opened SqlScanner

  /** Scanning on from bracket depth `depth`: true when the depth comes back to zero at the very end and
      not before. Quotes are not looked at. */
  predicate WrapsFrom(s: string, depth: int)
    decreases |s|
  {
    if s == "" then depth == 0
    else if s[0] == '(' then WrapsFrom(s[1..], depth + 1)
    else if s[0] == ')' then
      if depth == 1 && |s| > 1 then false else WrapsFrom(s[1..], depth - 1)
    else WrapsFrom(s[1..], depth)
  }

  /** One pair of brackets encloses the whole text. */
  predicate Wrapped(s: string) {
    s != "" && s[0] == '(' && s[|s| - 1] == ')' && WrapsFrom(s, 0)
  }

  function Strip(str: string): (r: string)
    ensures |r| <= |str|
    decreases |str|
  {
    var s := Trim(str);
    if Wrapped(s) then assert |s| >= 2 by { WrappedLength(s); } Strip(s[1..|s| - 1]) else s
  }

  lemma WrappedLength(s: string)
    ensures Wrapped(s) ==> |s| >= 2
  {
  }

  method StripOuterParens(str: string) returns (r: string)
    ensures r == Strip(str)
    decreases |str|
  {
    var s := Trim(str);
    if s != "" && s[0] == '(' && s[|s| - 1] == ')' {
      var depth := 0;
      var wrapsEntireString := true;
      var i := 0;
      assert s[0..] == s;
      while i < |s|
        invariant 0 <= i <= |s|
        invariant wrapsEntireString ==> WrapsFrom(s, 0) == WrapsFrom(s[i..], depth)
        invariant !wrapsEntireString ==> !WrapsFrom(s, 0)
      {
        assert s[i..][0] == s[i] && s[i..][1..] == s[i + 1..];
        if s[i] == '(' {
          depth := depth + 1;
        } else if s[i] == ')' {
          depth := depth - 1;
          if depth == 0 && i < |s| - 1 {
            wrapsEntireString := false;
            break;
          }
        }
        i := i + 1;
      }
      if wrapsEntireString && depth == 0 {
        WrappedLength(s);
        r := StripOuterParens(s[1..|s| - 1]);
        return;
      }
    }
    r := s;
  }

  /** OR is split first, so it binds looser than AND; a condition without either is a single predicate. */
  function EvalWhere(where: string, eval: string -> bool): bool
    decreases |where|
  {
    if Trim(where) == "" then true
    else
      var cleaned := Strip(where);
      var orParts := Split(cleaned, OR);
      if |orParts| > 1 then exists i :: 0 <= i < |orParts| && EvalWhere(orParts[i], eval)
      else
        var andParts := Split(cleaned, AND);
        if |andParts| > 1 then forall i :: 0 <= i < |andParts| ==> EvalWhere(andParts[i], eval)
        else eval(cleaned)
  }

  // ---------------------------------------------------------------------------
  // Conditions as trees, and their text
  // ---------------------------------------------------------------------------

  /** A condition with the brackets it is written with. */
  datatype Cond =
    | Atom(text: string)
    | Paren(inner: Cond)
    | And(left: Cond, right: Cond)
    | Or(left: Cond, right: Cond)

  function Meaning(t: Cond, eval: string -> bool): bool {
    match t
    case Atom(text) => eval(text)
    case Paren(inner) => Meaning(inner, eval)
    case And(l, r) => Meaning(l, eval) && Meaning(r, eval)
    case Or(l, r) => Meaning(l, eval) || Meaning(r, eval)
  }

  function Text(t: Cond): string {
    match t
    case Atom(text) => text
    case Paren(inner) => "(" + Text(inner) + ")"
    case And(l, r) => Text(l) + AND + Text(r)
    case Or(l, r) => Text(l) + OR + Text(r)
  }

  /** Scanning from `st`, the bracket depth never falls below zero. */
  predicate Nested(s: string, st: Scan)
    decreases |s|
  {
    st.depth >= 0 && (s == "" || Nested(s[1..], Advance(st, s[0])))
  }

  /** The brackets of `s`, quoted or not, match when counted from `depth`. */
  predicate Matched(s: string, depth: int)
    decreases |s|
  {
    depth >= 0 &&
    if s == "" then depth == 0
    else Matched(s[1..], if s[0] == '(' then depth + 1 else if s[0] == ')' then depth - 1 else depth)
  }

  /** A predicate's text: trimmed, with balanced quotes and brackets, not wholly in one bracket pair, and
      without a delimiter at top level even when a space stands on either side. */
  predicate GoodAtom(a: string) {
    && Nested(a, TOP) && Matched(a, 0) && !Wrapped(a)
    && Piece(a, OR) && Piece(a, AND)
  }

  /** Only an OR directly under an AND needs brackets; any others are welcome. */
  predicate WellBracketed(t: Cond) {
    match t
    case Atom(text) => GoodAtom(text)
    case Paren(inner) => WellBracketed(inner)
    case And(l, r) => !l.Or? && !r.Or? && WellBracketed(l) && WellBracketed(r)
    case Or(l, r) => WellBracketed(l) && WellBracketed(r)
  }

  /** What the text of every well-bracketed condition is like. */
  predicate GoodText(s: string) {
    Trimmed(s) && Nested(s, TOP) && AtTop(Run(TOP, s)) && Matched(s, 0)
  }

  // ---------------------------------------------------------------------------
  // Scanning inside brackets and across joints
  // ---------------------------------------------------------------------------

  lemma {:induction false} NestedConcat(a: string, b: string, st: Scan)
    requires Nested(a, st) && Nested(b, Run(st, a))
    ensures Nested(a + b, st)
    decreases |a|
  {
    if a == "" {
      assert a + b == b;
    } else {
      assert (a + b)[0] == a[0] && (a + b)[1..] == a[1..] + b;
      NestedConcat(a[1..], b, Advance(st, a[0]));
    }
  }

  lemma {:induction false} MatchedConcat(a: string, b: string, depth: int, base: int)
    requires Matched(a, depth) && base >= 0 && Matched(b, base)
    ensures Matched(a + b, depth + base)
    decreases |a|
  {
    if a == "" {
      assert a + b == b;
    } else {
      assert (a + b)[0] == a[0] && (a + b)[1..] == a[1..] + b;
      MatchedConcat(a[1..], b, if a[0] == '(' then depth + 1 else if a[0] == ')' then depth - 1 else depth, base);
    }
  }

  function Deeper(st: Scan): Scan {
    st.(depth := st.depth + 1)
  }

  /** Inside one more bracket the scanner does the same one level deeper, and is never at top level. */
  lemma {:induction false} InsideBracket(s: string, tail: string, st: Scan, d: string)
    requires Nested(s, st)
    ensures Run(Deeper(st), s) == Deeper(Run(st, s))
    ensures Nested(s, Deeper(st))
    ensures Quiet(s, tail, Deeper(st), d)
    decreases |s|
  {
    if s != "" {
      assert Advance(Deeper(st), s[0]) == Deeper(Advance(st, s[0]));
      InsideBracket(s[1..], tail, Advance(st, s[0]), d);
    }
  }

  lemma StrictlyTrimmed(a: string, mid: string, b: string)
    requires Trimmed(a) && Trimmed(b)
    ensures Trimmed(a + mid + b)
  {
    assert (a + mid + b)[0] == a[0];
    assert (a + mid + b)[|a + mid + b| - 1] == b[|b| - 1];
  }

  /** The text between two operands. */
  predicate Joint(mid: string) {
    mid == OR || mid == AND
  }

  lemma JointScan(mid: string, st: Scan)
    requires Joint(mid) && AtTop(st)
    ensures Run(st, mid) == TOP && Nested(mid, st) && Matched(mid, 0)
  {
    if mid == OR {
      assert mid == " OR ";
      var a, b, c, e := mid[1..], mid[2..], mid[3..], mid[4..];
      assert a[1..] == b && b[1..] == c && c[1..] == e == "";
      assert a[0] == 'O' && b[0] == 'R' && c[0] == ' ';
      assert Run(st, mid) == Run(TOP, a) == Run(TOP, b) == Run(TOP, c) == TOP;
      assert Nested(e, TOP) && Nested(c, TOP) && Nested(b, TOP) && Nested(a, TOP);
      assert Matched(e, 0) && Matched(c, 0) && Matched(b, 0) && Matched(a, 0);
    } else {
      assert mid == " AND ";
      var a, b, c, e, f := mid[1..], mid[2..], mid[3..], mid[4..], mid[5..];
      assert a[1..] == b && b[1..] == c && c[1..] == e && e[1..] == f == "";
      assert a[0] == 'A' && b[0] == 'N' && c[0] == 'D' && e[0] == ' ';
      assert Run(st, mid) == Run(TOP, a) == Run(TOP, b) == Run(TOP, c) == Run(TOP, e) == TOP;
      assert Nested(f, TOP) && Nested(e, TOP) && Nested(c, TOP) && Nested(b, TOP) && Nested(a, TOP);
      assert Matched(f, 0) && Matched(e, 0) && Matched(c, 0) && Matched(b, 0) && Matched(a, 0);
    }
  }

  lemma JoinedText(a: string, mid: string, b: string)
    requires GoodText(a) && GoodText(b) && Joint(mid)
    ensures GoodText(a + mid + b)
  {
    var st := Run(TOP, a);
    JointScan(mid, st);
    StrictlyTrimmed(a, mid, b);
    RunConcat(TOP, a, mid);
    RunConcat(TOP, a + mid, b);
    NestedConcat(a, mid, TOP);
    NestedConcat(a + mid, b, TOP);
    MatchedConcat(a, mid, 0, 0);
    MatchedConcat(a + mid, b, 0, 0);
  }

  lemma BracketedText(s: string)
    requires GoodText(s)
    ensures GoodText("(" + s + ")")
  {
    var st := Scan(1, false, false);
    assert st == Deeper(TOP) && Advance(TOP, '(') == st;
    InsideBracket(s, "", TOP, OR);
    var end := Run(st, s);
    assert end.depth == 1 && !end.inQuote;
    assert ")"[1..] == "";
    assert AtTop(Run(end, ")")) && Nested(")", end);
    RunConcat(st, s, ")");
    NestedConcat(s, ")", st);
    assert Matched(")", 1);
    MatchedConcat(s, ")", 0, 1);
    var whole := "(" + s + ")";
    assert whole == "(" + (s + ")");
    assert whole[0] == '(' && whole[1..] == s + ")" && whole[|whole| - 1] == ')';
  }

  /** MAIN step: the text of a well-bracketed condition is trimmed and balanced. */
  lemma {:induction false} TextIsGood(t: Cond)
    requires WellBracketed(t)
    ensures GoodText(Text(t))
  {
    match t {
      case Atom(text) =>
      case Paren(inner) =>
        TextIsGood(inner);
        BracketedText(Text(inner));
      case And(l, r) =>
        TextIsGood(l);
        TextIsGood(r);
        JoinedText(Text(l), AND, Text(r));
      case Or(l, r) =>
        TextIsGood(l);
        TextIsGood(r);
        JoinedText(Text(l), OR, Text(r));
    }
  }

  // ---------------------------------------------------------------------------
  // No delimiter at top level
  // ---------------------------------------------------------------------------

  lemma BracketedPiece(s: string, d: string)
    requires GoodText(s) && Joint(d)
    ensures Piece("(" + s + ")", d)
  {
    BracketedText(s);
    var st := Scan(1, false, false);
    assert st == Deeper(TOP) && Advance(TOP, '(') == st && Advance(TOP, ' ') == TOP;
    var tail, whole := ") ", "(" + s + ")";
    InsideBracket(s, ") ", TOP, d);
    var end := Run(st, s);
    assert Quiet("", " ", Advance(end, ')'), d);
    assert ")"[1..] == "" && ")" + " " == ") ";
    assert Quiet(")", " ", end, d);
    QuietConcat(s, ")", " ", st, d);
    assert whole[0] == '(' && whole[1..] == s + ")";
    assert (whole + " ")[0] == '(' && !Match(whole + " ", d);
    assert Quiet(whole, " ", TOP, d);
    assert (" " + whole)[0] == ' ' && (" " + whole)[1..] == whole;
    assert (" " + whole + " ")[1] == '(';
    assert !Match(" " + whole + " ", d);
  }

  /** The delimiter OR does not match across the joint " AND ". */
  lemma AndJointQuiet(st: Scan, rest: string)
    requires AtTop(st)
    ensures Quiet(" AND", rest, st, OR) && Run(st, " AND").depth == 0
    ensures !Run(st, " AND").inQuote && !Run(st, " AND").escaped
  {
    var s := " AND";
    var a, b, c, e := s[1..], s[2..], s[3..], s[4..];
    assert a[1..] == b && b[1..] == c && c[1..] == e == "";
    assert a[0] == 'A' && b[0] == 'N' && c[0] == 'D';
    assert (s + rest)[1] == 'A' && !Match(s + rest, OR);
    assert (a + rest)[0] == 'A' && (b + rest)[0] == 'N' && (c + rest)[0] == 'D';
    assert Quiet(e, rest, TOP, OR) && Quiet(c, rest, TOP, OR) && Quiet(b, rest, TOP, OR) && Quiet(a, rest, TOP, OR);
    assert Run(st, s) == Run(TOP, a) == Run(TOP, b) == Run(TOP, c) == TOP;
  }

  lemma SpacedRun(a: string)
    requires GoodText(a)
    ensures Run(TOP, " " + a) == Run(TOP, a) && AtTop(Run(TOP, a))
  {
    assert (" " + a)[0] == ' ' && (" " + a)[1..] == a;
  }

  lemma AndedText(a: string, b: string)
    ensures " " + a + (" AND" + (" " + b)) == " " + (a + AND + b)
    ensures " AND" + (" " + b + " ") == " AND" + (" " + b) + " "
    ensures Follows(" AND" + (" " + b) + " ")
  {
  }

  /** Two pieces joined by AND are one piece for OR. */
  lemma AndedPiece(a: string, b: string)
    requires Piece(a, OR) && Piece(b, OR) && GoodText(a) && GoodText(b)
    ensures Piece(a + AND + b, OR)
  {
    hide Quiet, Run, Nested, Matched, Match, Follows;
    var sa, sb, joint := " " + a, " " + b, " AND";
    JoinedText(a, AND, b);
    Delimiters();
    SpacedRun(a);
    var st := Run(TOP, sa);
    AndedText(a, b);
    AndJointQuiet(st, sb + " ");
    QuietTail(sa, joint + sb + " ", TOP, OR);
    assert Run(st, joint) == TOP by { JointQuietEnd(st); }
    QuietConcat(joint, sb, " ", st, OR);
    QuietConcat(sa, joint + sb, " ", TOP, OR);
  }

  lemma JointQuietEnd(st: Scan)
    requires AtTop(st)
    ensures Run(st, " AND") == TOP
  {
    AndJointQuiet(st, "");
  }

  /** Anything but an OR is one piece for OR; anything but an OR or an AND is one piece for AND. */
  lemma {:induction false} TextIsPiece(t: Cond)
    requires WellBracketed(t)
    ensures !t.Or? ==> Piece(Text(t), OR)
    ensures t.Atom? || t.Paren? ==> Piece(Text(t), AND)
  {
    match t {
      case Atom(text) =>
      case Paren(inner) =>
        TextIsGood(inner);
        BracketedPiece(Text(inner), OR);
        BracketedPiece(Text(inner), AND);
      case And(l, r) =>
        TextIsGood(l);
        TextIsGood(r);
        TextIsPiece(l);
        TextIsPiece(r);
        AndedPiece(Text(l), Text(r));
      case Or(l, r) =>
    }
  }

  // ---------------------------------------------------------------------------
  // Operands
  // ---------------------------------------------------------------------------

  /** The operands an unbracketed chain of ORs (of ANDs) is split into. */
  function Operands(t: Cond, or: bool): (ts: seq<Cond>)
    ensures ts != []
  {
    if or && t.Or? then Operands(t.left, or) + Operands(t.right, or)
    else if !or && t.And? then Operands(t.left, or) + Operands(t.right, or)
    else [t]
  }

  function Texts(ts: seq<Cond>): (ss: seq<string>)
    ensures |ss| == |ts| && forall i :: 0 <= i < |ts| ==> ss[i] == Text(ts[i])
  {
    seq(|ts|, i requires 0 <= i < |ts| => Text(ts[i]))
  }

  function JointOf(or: bool): string { if or then OR else AND }

  lemma {:induction false} JoinConcat(a: seq<string>, b: seq<string>, d: string)
    requires a != [] && b != []
    ensures Join(a + b, d) == Join(a, d) + d + Join(b, d)
    decreases |a|
  {
    if |a| == 1 {
      assert (a + b)[0] == a[0] && (a + b)[1..] == b;
    } else {
      assert (a + b)[0] == a[0] && (a + b)[1..] == a[1..] + b;
      JoinConcat(a[1..], b, d);
      assert a[0] + d + (Join(a[1..], d) + d + Join(b, d)) == a[0] + d + Join(a[1..], d) + d + Join(b, d);
    }
  }

  predicate Chained(t: Cond, or: bool) {
    if or then t.Or? else t.And?
  }

  /** One level of a chain, and its end. */
  lemma ChainStep(t: Cond, or: bool)
    ensures Chained(t, or) ==>
      && Text(t) == Text(t.left) + JointOf(or) + Text(t.right)
      && Operands(t, or) == Operands(t.left, or) + Operands(t.right, or)
    ensures !Chained(t, or) ==> Operands(t, or) == [t] && Join(Texts([t]), JointOf(or)) == Text(t)
  {
  }

  lemma TextsConcat(a: seq<Cond>, b: seq<Cond>)
    ensures Texts(a + b) == Texts(a) + Texts(b)
  {
  }

  lemma {:induction false} TextIsJoin(t: Cond, or: bool)
    ensures Text(t) == Join(Texts(Operands(t, or)), JointOf(or))
  {
    hide Join, Text, Operands, Texts, JointOf;
    ChainStep(t, or);
    if Chained(t, or) {
      TextIsJoin(t.left, or);
      TextIsJoin(t.right, or);
      var l, r := Operands(t.left, or), Operands(t.right, or);
      JoinConcat(Texts(l), Texts(r), JointOf(or));
      TextsConcat(l, r);
    }
  }

  function Size(t: Cond): nat {
    match t
    case Atom(_) => 1
    case Paren(inner) => 1 + Size(inner)
    case And(l, r) => 1 + Size(l) + Size(r)
    case Or(l, r) => 1 + Size(l) + Size(r)
  }

  lemma {:induction false} OperandsFacts(t: Cond, or: bool)
    requires WellBracketed(t)
    ensures forall u :: u in Operands(t, or) ==>
      WellBracketed(u) && Size(u) <= Size(t) && (if or then !u.Or? else !u.And? && (!t.Or? ==> !u.Or?))
    ensures (or && t.Or?) || (!or && t.And?) ==>
      |Operands(t, or)| >= 2 && forall u :: u in Operands(t, or) ==> Size(u) < Size(t)
  {
    if (or && t.Or?) || (!or && t.And?) {
      OperandsFacts(t.left, or);
      OperandsFacts(t.right, or);
    }
  }

  lemma {:induction false} OperandsMeaning(t: Cond, or: bool, eval: string -> bool)
    ensures or ==> (Meaning(t, eval) <==> exists u :: u in Operands(t, or) && Meaning(u, eval))
    ensures !or ==> (Meaning(t, eval) <==> forall u :: u in Operands(t, or) ==> Meaning(u, eval))
  {
    if (or && t.Or?) || (!or && t.And?) {
      OperandsMeaning(t.left, or, eval);
      OperandsMeaning(t.right, or, eval);
    } else {
      assert t in Operands(t, or);
    }
  }

  /** Splitting the text of a condition at its own level gives the texts of its operands. */
  lemma SplitText(t: Cond, or: bool)
    requires WellBracketed(t) && (or || !t.Or?)
    ensures Split(Text(t), JointOf(or)) == Texts(Operands(t, or))
  {
    var ts := Operands(t, or);
    Delimiters();
    TextIsJoin(t, or);
    OperandsFacts(t, or);
    forall s | s in Texts(ts) ensures Piece(s, JointOf(or)) {
      var i :| 0 <= i < |ts| && Texts(ts)[i] == s;
      TextIsPiece(ts[i]);
    }
    SplitJoin(Texts(ts), JointOf(or));
  }

  // ---------------------------------------------------------------------------
  // Outer brackets
  // ---------------------------------------------------------------------------

  /** Brackets that close before the end do not enclose the whole text. */
  lemma {:induction false} ClosesEarly(s: string, rest: string, depth: int)
    requires Matched(s, depth) && depth > 0 && rest != ""
    ensures !WrapsFrom(s + rest, depth)
    decreases |s|
  {
    assert s != "";
    assert (s + rest)[0] == s[0] && (s + rest)[1..] == s[1..] + rest;
    if s[0] == '(' {
      ClosesEarly(s[1..], rest, depth + 1);
    } else if s[0] == ')' {
      if depth > 1 {
        ClosesEarly(s[1..], rest, depth - 1);
      }
    } else {
      ClosesEarly(s[1..], rest, depth);
    }
  }

  lemma {:induction false} ClosesAtEnd(s: string, depth: int)
    requires Matched(s, depth)
    ensures WrapsFrom(s + ")", depth + 1)
    decreases |s|
  {
    if s == "" {
      assert s + ")" == ")" && ")"[1..] == "";
    } else {
      assert (s + ")")[0] == s[0] && (s + ")")[1..] == s[1..] + ")";
      ClosesAtEnd(s[1..], if s[0] == '(' then depth + 1 else if s[0] == ')' then depth - 1 else depth);
    }
  }

  lemma JoinedNotWrapped(a: string, rest: string)
    requires GoodText(a) && rest != ""
    ensures !Wrapped(a + rest)
  {
    assert (a + rest)[0] == a[0] && (a + rest)[1..] == a[1..] + rest;
    if a[0] == '(' {
      ClosesEarly(a[1..], rest, 1);
    }
  }

  lemma BracketedWrapped(s: string)
    requires GoodText(s)
    ensures Wrapped("(" + s + ")") && Strip("(" + s + ")") == Strip(s)
  {
    var whole := "(" + s + ")";
    BracketedText(s);
    assert whole[0] == '(' && whole[|whole| - 1] == ')' && whole[1..] == s + ")";
    ClosesAtEnd(s, 0);
    TrimOfTrimmed(whole);
    assert whole[1..|whole| - 1] == s;
  }

  /** The condition inside all the brackets around it. */
  function Core(t: Cond): (c: Cond)
    ensures !c.Paren? && Size(c) <= Size(t)
  {
    if t.Paren? then Core(t.inner) else t
  }

  /** Only the brackets of a bracketed condition enclose its whole text. */
  lemma NotWrappedText(t: Cond)
    requires WellBracketed(t) && !t.Paren?
    ensures !Wrapped(Text(t))
  {
    hide GoodText, Wrapped;
    if t.And? {
      TextIsGood(t.left);
      JoinedNotWrapped(Text(t.left), AND + Text(t.right));
      ConcatAssoc(Text(t.left), AND, Text(t.right));
    } else if t.Or? {
      TextIsGood(t.left);
      JoinedNotWrapped(Text(t.left), OR + Text(t.right));
      ConcatAssoc(Text(t.left), OR, Text(t.right));
    } else {
      AtomNotWrapped(t);
    }
  }

  lemma AtomNotWrapped(t: Cond)
    requires WellBracketed(t) && t.Atom?
    ensures !Wrapped(Text(t))
  {
  }

  lemma StripDone(s: string)
    requires GoodText(s) && !Wrapped(s)
    ensures Strip(s) == s
  {
    TrimOfTrimmed(s);
  }

  /** Stripping the text leaves the text of what is inside all the outer brackets. */
  lemma {:induction false} StripText(t: Cond)
    requires WellBracketed(t)
    ensures Strip(Text(t)) == Text(Core(t)) && WellBracketed(Core(t))
    ensures forall eval :: Meaning(Core(t), eval) == Meaning(t, eval)
  {
    hide Strip, GoodText, Wrapped, GoodAtom;
    TextIsGood(t);
    if t.Paren? {
      TextIsGood(t.inner);
      BracketedWrapped(Text(t.inner));
      StripText(t.inner);
    } else {
      NotWrappedText(t);
      StripDone(Text(t));
    }
  }

  // ---------------------------------------------------------------------------
  // The evaluator means what the tree means
  // ---------------------------------------------------------------------------

  lemma EvalSplits(where: string, eval: string -> bool, cleaned: string, ors: seq<string>, ands: seq<string>)
    requires Trim(where) != "" && cleaned == Strip(where)
    requires ors == Split(cleaned, OR) && ands == Split(cleaned, AND)
    ensures |ors| > 1 ==> (EvalWhere(where, eval) <==> exists i :: 0 <= i < |ors| && EvalWhere(ors[i], eval))
    ensures |ors| <= 1 && |ands| > 1 ==>
      (EvalWhere(where, eval) <==> forall i :: 0 <= i < |ands| ==> EvalWhere(ands[i], eval))
    ensures |ors| <= 1 && |ands| <= 1 ==> EvalWhere(where, eval) == eval(cleaned)
  {
  }

  /** MAIN: evaluating the text of a condition gives the condition's value: for every AND/OR tree, however
      deep, with the brackets it needs and any more besides. */
  lemma {:induction false} EvalMeansTree(t: Cond, eval: string -> bool)
    requires WellBracketed(t)
    ensures EvalWhere(Text(t), eval) == Meaning(t, eval)
    decreases Size(t)
  {
    hide EvalWhere, Split, Strip, Text, GoodText, Trim, WellBracketed, Operands;
    var core := Core(t);
    NotBlank(t);
    StripText(t);
    SplitText(core, true);
    EvalSplits(Text(t), eval, Text(core), Split(Text(core), OR), Split(Text(core), AND));
    OperandsFacts(core, true);
    if core.Or? {
      OperandsEval(core, true, eval, Size(t));
    } else {
      OperandsAlone(core, true);
      SplitText(core, false);
      OperandsFacts(core, false);
      if core.And? {
        OperandsEval(core, false, eval, Size(t));
      } else {
        OperandsAlone(core, false);
        AtomText(core);
      }
    }
  }

  lemma NotBlank(t: Cond)
    requires WellBracketed(t)
    ensures Trim(Text(t)) != ""
  {
    TextIsGood(t);
    TrimOfTrimmed(Text(t));
  }

  lemma OperandsAlone(t: Cond, or: bool)
    requires if or then !t.Or? else !t.And?
    ensures Operands(t, or) == [t]
  {
  }

  lemma AtomText(t: Cond)
    requires t.Atom?
    ensures Text(t) == t.text
  {
  }

  /** The operands combine to the whole, once each of them is evaluated rightly. */
  lemma OperandsCombine(core: Cond, or: bool, eval: string -> bool, ts: seq<Cond>, parts: seq<string>)
    requires ts == Operands(core, or) && parts == Texts(ts)
    requires forall i :: 0 <= i < |ts| ==> EvalWhere(parts[i], eval) == Meaning(ts[i], eval)
    ensures or ==> ((exists i :: 0 <= i < |parts| && EvalWhere(parts[i], eval)) <==> Meaning(core, eval))
    ensures !or ==> ((forall i :: 0 <= i < |parts| ==> EvalWhere(parts[i], eval)) <==> Meaning(core, eval))
  {
    hide EvalWhere, Text, Operands, Meaning;
    OperandsMeaning(core, or, eval);
    assert forall i :: 0 <= i < |ts| ==> ts[i] in ts;
  }

  lemma OperandsEval(core: Cond, or: bool, eval: string -> bool, size: nat)
    requires WellBracketed(core) && Size(core) <= size && (if or then core.Or? else core.And?)
    ensures var parts := Texts(Operands(core, or));
      && |parts| > 1
      && (or ==> ((exists i :: 0 <= i < |parts| && EvalWhere(parts[i], eval)) <==> Meaning(core, eval)))
      && (!or ==> ((forall i :: 0 <= i < |parts| ==> EvalWhere(parts[i], eval)) <==> Meaning(core, eval)))
    decreases size, 0
  {
    hide EvalWhere, Text, WellBracketed, Operands, Meaning, Size;
    var ts := Operands(core, or);
    OperandsFacts(core, or);
    forall i | 0 <= i < |ts| ensures EvalWhere(Texts(ts)[i], eval) == Meaning(ts[i], eval) {
      assert ts[i] in ts;
      EvalMeansTree(ts[i], eval);
    }
    OperandsCombine(core, or, eval, ts, Texts(ts));
  }

  // ---------------------------------------------------------------------------
  // Printing any tree with the fewest brackets
  // ---------------------------------------------------------------------------

  predicate GoodAtoms(t: Cond) {
    match t
    case Atom(text) => GoodAtom(text)
    case Paren(inner) => GoodAtoms(inner)
    case And(l, r) => GoodAtoms(l) && GoodAtoms(r)
    case Or(l, r) => GoodAtoms(l) && GoodAtoms(r)
  }

  function Guarded(t: Cond): Cond {
    if t.Or? then Paren(t) else t
  }

  /** The tree with a bracket around every OR that stands directly under an AND. */
  function Bracketed(t: Cond): Cond {
    match t
    case Atom(_) => t
    case Paren(inner) => Paren(Bracketed(inner))
    case And(l, r) => And(Guarded(Bracketed(l)), Guarded(Bracketed(r)))
    case Or(l, r) => Or(Bracketed(l), Bracketed(r))
  }

  lemma {:induction false} BracketedFacts(t: Cond)
    requires GoodAtoms(t)
    ensures WellBracketed(Bracketed(t))
    ensures forall eval :: Meaning(Bracketed(t), eval) == Meaning(t, eval)
  {
    hide GoodAtom;
    match t {
      case Atom(_) =>
      case Paren(inner) =>
        BracketedFacts(inner);
      case And(l, r) =>
        BracketedFacts(l);
        BracketedFacts(r);
      case Or(l, r) =>
        BracketedFacts(l);
        BracketedFacts(r);
    }
  }

  /** MAIN: printed with only the brackets it needs, any AND/OR tree over good atoms evaluates to its value. */
  lemma PrintedMeansTree(t: Cond, eval: string -> bool)
    requires GoodAtoms(t)
    ensures EvalWhere(Text(Bracketed(t)), eval) == Meaning(t, eval)
  {
    hide EvalWhere, Text, Bracketed, GoodAtoms, WellBracketed;
    BracketedFacts(t);
    EvalMeansTree(Bracketed(t), eval);
  }

  /** Those brackets are needed: without them the AND takes the right operand of the OR to itself. */
  lemma WithoutBrackets(a: Cond, b: Cond, c: Cond, eval: string -> bool)
    requires a.Atom? && b.Atom? && c.Atom? && WellBracketed(a) && WellBracketed(b) && WellBracketed(c)
    ensures EvalWhere(Text(And(Or(a, b), c)), eval) == Meaning(Or(a, And(b, c)), eval)
  {
    hide EvalWhere, GoodAtom, Text;
    EvalMeansTree(Or(a, And(b, c)), eval);
    ChainStep(Or(a, And(b, c)), true);
    ChainStep(And(b, c), false);
    ChainStep(And(Or(a, b), c), false);
    ChainStep(Or(a, b), true);
    var x, y, z := Text(a), Text(b), Text(c);
    assert x + OR + (y + AND + z) == x + OR + y + AND + z;
  }
}
