/** Every tree has a text that the evaluator of navit/command.c reads as that tree. */
module CommandRoundTrip {
  import opened CommandTree
  import opened CommandGrammar
  import opened CommandPrint

  // ------------------------------------------------------------ text and spaces

  lemma SkipsOne(t: Text, p: nat)
    requires p < |t| && t[p] == ' ' && !IsSpace(At(t, p + 1))
    ensures SkipSpaces(t, p) == p + 1
  {
  }

  lemma SkipsNone(t: Text, p: nat)
    requires p <= |t| && !IsSpace(At(t, p))
    ensures SkipSpaces(t, p) == p
  {
  }

  lemma SkipTwice(t: Text, p: nat)
    requires p <= |t|
    ensures SkipSpaces(t, SkipSpaces(t, p)) == SkipSpaces(t, p)
  {
  }

  lemma InfixParts(t: Text, i: nat, a: string, op: string, b: string)
    requires Starts(t, i, Infix(a, op, b))
    ensures var p := i + |a|;
      && Starts(t, i, a) && p < |t| && t[p] == ' ' && Starts(t, p + 1, op + " ")
      && p + 1 + |op| < |t| && t[p + 1 + |op|] == ' ' && Starts(t, p + |op| + 2, b)
      && i + |Infix(a, op, b)| == p + |op| + 2 + |b| <= |t|
  {
    hide Starts;
    var tail := (op + " ") + b;
    InfixIs(a, op, b);
    StartsBoth(t, i, a, " " + tail);
    StartsBoth(t, i + |a|, " ", tail);
    StartsBoth(t, i + |a| + 1, op + " ", b);
    StartsBoth(t, i + |a| + 1, op, " ");
    OneChar(t, i + |a|, ' ');
    OneChar(t, i + |a| + 1 + |op|, ' ');
    EndsWithin(t, i + |a| + |op| + 2, b);
  }

  lemma InfixIs(a: string, op: string, b: string)
    ensures Infix(a, op, b) == a + (" " + ((op + " ") + b))
  {
  }

  lemma EndsWithin(t: Text, i: nat, w: string)
    requires Starts(t, i, w)
    ensures i + |w| <= |t|
  {
  }

  lemma OneChar(t: Text, i: nat, c: char)
    requires Starts(t, i, [c])
    ensures i < |t| && t[i] == c
  {
  }

  lemma TwoChars(t: Text, i: nat, c: char, d: char)
    requires Starts(t, i, [c, d])
    ensures i + 1 < |t| && t[i] == c && t[i + 1] == d
  {
    var w := t[i..i + 2];
    assert w[0] == t[i] && w[1] == t[i + 1];
  }

  /** What a printed tree can start with */
  predicate Leading(c: char) {
    IsLetter(c) || IsDigit(c) || c == '-' || c == '"' || c == '('
  }

  lemma {:induction false} FirstOfBody(e: Expr)
    requires Fine(e)
    ensures Body(e) != ""
    ensures Leading(Body(e)[0]) || (Own(e) <= 12 && (Body(e)[0] == '~' || Body(e)[0] == '!'))
    decreases e, 0
  {
    match e
    case Literal(_) =>
    case Name(_) =>
    case Member(o, _) => FirstOf(o, 13);
    case Indexed(o) => FirstOf(o, 13);
    case Apply(f, _) => FirstOf(f, 13);
    case Prefix(op, o) =>
    case Binary(op, l, _) => FirstOf(l, Strength(op));
    case Choice(c, _, _) => FirstOf(c, 4);
    case Assign(target, _) => FirstOf(target, 3);
    case Comma(l, _) => FirstOf(l, 1);
  }

  lemma {:induction false} FirstOf(e: Expr, k: nat)
    requires Fine(e)
    ensures Print(e, k) != ""
    ensures Leading(Print(e, k)[0]) || (k <= 12 && (Print(e, k)[0] == '~' || Print(e, k)[0] == '!'))
    decreases e, 1
  {
    hide Body, Fine;
    FirstOfBody(e);
  }

  /** Where a printed tree stands, there is neither a space nor a closing parenthesis nor the end. */
  lemma StandsAt(t: Text, i: nat, e: Expr, k: nat)
    requires Fine(e) && Starts(t, i, Print(e, k))
    ensures i < |t| && i + |Print(e, k)| <= |t| && !IsSpace(t[i]) && t[i] != ')'
    ensures k >= 13 ==> t[i] != '~' && t[i] != '!'
  {
    hide Print, Fine;
    FirstOf(e, k);
    StartsAt(t, i, Print(e, k));
    assert t[i + 0] == Print(e, k)[0];
  }

  /** A token behind a value stops everything that binds tighter. */
  lemma TokenFollows(t: Text, p: nat, tok: string, k: nat)
    requires p < |t| && t[p] == ' ' && IsToken(tok) && Starts(t, p + 1, tok + " ") && Strength(tok) < k
    ensures Follows(t, p, k) && SkipSpaces(t, p) == p + 1
  {
    hide Stops, Starts, IsToken, Strength;
    TokenChars(t, p + 1, tok);
    SkipsOne(t, p);
    var j := p + 1;
    forall m | k <= m <= 14
      ensures Stops(t, j, m)
    {
      TokenStops(t, j, tok, m);
    }
  }

  /** So does a closing parenthesis, a colon, or the end. */
  lemma EndFollows(t: Text, p: nat, k: nat)
    requires p <= |t| && (At(t, p) == ')' || At(t, p) == '\0')
    ensures Follows(t, p, k) && SkipSpaces(t, p) == p
  {
    hide Stops;
    SkipsNone(t, p);
    forall m | k <= m <= 14
      ensures Stops(t, p, m)
    {
      EndStops(t, p, m);
    }
  }

  lemma TighterFollows(t: Text, p: nat, k: nat, m: nat)
    requires p <= |t| && Follows(t, p, k) && k <= m
    ensures Follows(t, p, m)
  {
    hide Stops;
  }

  // ------------------------------------------------------------------ values

  lemma {:induction false} DigitsRead(t: Text, i: nat, n: nat)
    requires Starts(t, i, DigitsOf(n))
    ensures Digits(t, i, 0) == Digits(t, i + |DigitsOf(n)|, n)
    decreases n
  {
    var d := [('0' as int + n % 10) as char];
    if n < 10 {
      StartsAt(t, i, d);
      assert t[i + 0] == d[0];
    } else {
      var front := DigitsOf(n / 10);
      StartsBoth(t, i, front, d);
      StartsAt(t, i + |front|, d);
      assert t[i + |front| + 0] == d[0];
      DigitsRead(t, i, n / 10);
    }
  }

  lemma {:induction false} DigitsPass(t: Text, i: nat, j: nat, dots: nat)
    requires i <= j <= |t| && forall k :: i <= k < j ==> IsDigit(t[k])
    ensures NumberEnd(t, i, dots) == NumberEnd(t, j, dots) && DigitsEnd(t, i) == DigitsEnd(t, j)
    decreases j - i
  {
    if i < j {
      DigitsPass(t, i + 1, j, dots);
    }
  }

  /** The digits of a number in the text, behind its sign */
  lemma NumberStands(t: Text, i: nat, n: int) returns (start: nat)
    requires Starts(t, i, NumberText(n))
    ensures start == (if n < 0 then i + 1 else i) && i + |NumberText(n)| <= |t| && i < |t|
    ensures n < 0 <==> t[i] == '-'
    ensures start < i + |NumberText(n)| && Starts(t, start, DigitsOf(if n < 0 then -n else n))
    ensures i + |NumberText(n)| == start + |DigitsOf(if n < 0 then -n else n)|
    ensures forall k :: start <= k < i + |NumberText(n)| ==> IsDigit(t[k])
    ensures StartsNumber(t, i)
  {
    start := if n < 0 then i + 1 else i;
    var digits := DigitsOf(if n < 0 then -n else n);
    if n < 0 {
      StartsBoth(t, i, "-", digits);
      StartsAt(t, i, "-");
    }
    StartsAt(t, start, digits);
    forall k | start <= k < start + |digits|
      ensures IsDigit(t[k])
    {
      assert t[start + (k - start)] == digits[k - start];
    }
  }

  lemma IntegerReads(t: Text, i: nat, n: int)
    requires Starts(t, i, NumberText(n))
    requires var end := i + |NumberText(n)|; At(t, end) == ' ' || At(t, end) == ')' || At(t, end) == '\0'
    ensures ParseNumber(t, i) == Ok(Literal(IntAttr(n)), i + |NumberText(n)|) && StartsNumber(t, i)
  {
    hide NumberText, DigitsOf, Digits;
    var end := i + |NumberText(n)|;
    var start := NumberStands(t, i, n);
    DigitsPass(t, start, end, 0);
    assert NumberEnd(t, i, 0) == NumberEnd(t, start, 0) == NumberEnd(t, end, 0) == Upto(end);
    DigitsRead(t, start, if n < 0 then -n else n);
    DigitsStop(t, end, if n < 0 then -n else n);
    assert '.' !in t[i..end];
  }

  lemma DigitsStop(t: Text, i: nat, n: nat)
    requires !IsDigit(At(t, i))
    ensures Digits(t, i, n) == n
  {
  }

  lemma DoubleReads(t: Text, i: nat, n: int)
    requires Starts(t, i, NumberText(n) + ".")
    requires var end := i + |NumberText(n)| + 1; At(t, end) == ' ' || At(t, end) == ')' || At(t, end) == '\0'
    ensures ParseNumber(t, i) == Ok(Literal(DoubleAttr(n)), i + |NumberText(n)| + 1) && StartsNumber(t, i)
  {
    hide NumberText, DigitsOf, Digits, NumberEnd, Decimal, Starts;
    StartsBoth(t, i, NumberText(n), ".");
    var dot := i + |NumberText(n)|;
    OneChar(t, dot, '.');
    var start := NumberStands(t, i, n);
    DecimalEnds(t, i, start, dot);
    DecimalIs(t, i, start, dot, if n < 0 then -n else n);
    assert t[i..dot + 1][dot - i] == '.';
  }

  lemma DecimalEnds(t: Text, i: nat, start: nat, dot: nat)
    requires i <= start < dot < |t| && (start == i || (start == i + 1 && t[i] == '-')) && t[dot] == '.'
    requires forall k :: start <= k < dot ==> IsDigit(t[k])
    requires At(t, dot + 1) == ' ' || At(t, dot + 1) == ')' || At(t, dot + 1) == '\0'
    ensures NumberEnd(t, i, 0) == Upto(dot + 1)
  {
    DigitsPass(t, start, dot, 0);
    assert NumberEnd(t, i, 0) == NumberEnd(t, start, 0);
    assert NumberEnd(t, dot + 1, 1) == Upto(dot + 1);
  }

  lemma DecimalIs(t: Text, i: nat, start: nat, dot: nat, m: nat)
    requires i <= start < dot < |t| && start == (if t[i] == '-' then i + 1 else i) && t[dot] == '.'
    requires Starts(t, start, DigitsOf(m)) && dot == start + |DigitsOf(m)|
    requires forall k :: start <= k < dot ==> IsDigit(t[k])
    requires At(t, dot + 1) == ' ' || At(t, dot + 1) == ')' || At(t, dot + 1) == '\0'
    ensures Decimal(t, i) == if t[i] == '-' then 0 - m else m
  {
    hide NumberEnd, Digits, DigitsOf, Starts;
    DigitsPass(t, start, dot, 0);
    DigitsRead(t, start, m);
    DigitsStop(t, dot, m);
    DigitsStop(t, dot + 1, m);
    assert DigitsEnd(t, start) == dot && DigitsEnd(t, dot + 1) == dot + 1;
    assert Exponent(t, dot + 1) == 0;
    assert Power(0) == 1;
    assert Scaled(m, 0) == m * 1;
  }

  lemma {:induction false} QuotePasses(t: Text, i: nat, q: nat)
    requires i <= q < |t| && t[q] == '"' && forall k :: i <= k < q ==> t[k] != '"' && t[k] != '\\'
    ensures QuoteEnd(t, i) == Upto(q)
    decreases q - i
  {
    if i < q {
      QuotePasses(t, i + 1, q);
    }
  }

  lemma StringReads(t: Text, i: nat, s: string)
    requires PlainText(s) && Starts(t, i, "\"" + s + "\"")
    ensures i < |t| && t[i] == '"' && ParseQuoted(t, i) == Ok(Literal(TextAttr(s)), i + |s| + 2)
  {
    hide QuoteEnd;
    var w, q := "\"" + s + "\"", i + |s| + 1;
    StartsAt(t, i, w);
    assert t[i + 0] == w[0] && t[i + |s| + 1] == w[|s| + 1];
    forall k | i + 1 <= k < q
      ensures t[k] == s[k - i - 1] && t[k] != '"' && t[k] != '\\'
    {
      assert t[i + (k - i)] == w[k - i];
    }
    QuotePasses(t, i + 1, q);
    assert t[i + 1..q] == s;
    assert '\\' !in t[i..q];
  }

  lemma {:induction false} WordPasses(t: Text, i: nat, j: nat)
    requires i <= j <= |t| && !IsLetter(At(t, j)) && !IsDigit(At(t, j))
    requires forall k :: i <= k < j ==> IsLetter(t[k]) || IsDigit(t[k])
    ensures WordEnd(t, i) == j
    decreases j - i
  {
    if i < j {
      WordPasses(t, i + 1, j);
    }
  }

  lemma NameReads(t: Text, i: nat, n: string)
    requires IsWord(n) && Starts(t, i, n)
    requires At(t, i + |n|) == ' ' || At(t, i + |n|) == ')' || At(t, i + |n|) == '\0'
    ensures i < |t| && IsLetter(t[i]) && NameEnd(t, i) == i + |n| && t[i..i + |n|] == n
  {
    hide WordEnd;
    StartsAt(t, i, n);
    assert t[i + 0] == n[0];
    forall k | i <= k < i + |n|
      ensures IsLetter(t[k]) || IsDigit(t[k])
    {
      assert t[i + (k - i)] == n[k - i];
    }
    WordPasses(t, i, i + |n|);
  }

  /** A value is read where it ends, up to what follows. */
  lemma ValueReads(t: Text, i: nat, e: Expr)
    requires (e.Literal? || e.Name?) && Fine(e) && Starts(t, i, Body(e))
    requires var end := i + |Body(e)|; At(t, end) == ' ' || At(t, end) == ')' || At(t, end) == '\0'
    ensures i < |t| && ParseBrace(t, i) == Ok(e, i + |Body(e)|)
  {
    hide ParseNumber, ParseQuoted, NameEnd, NumberText, StartsNumber;
    assert Print(e, 14) == Body(e);
    StandsAt(t, i, e, 14);
    SkipsNone(t, i);
    StartsAt(t, i, "(");
    StartsAt(t, i, Body(e));
    assert t[i + 0] == Body(e)[0];
    match e
    case Name(n) => NameReads(t, i, n);
    case Literal(attr) =>
      match attr
      case IntAttr(n) => IntegerReads(t, i, n);
      case DoubleAttr(n) => DoubleReads(t, i, n);
      case TextAttr(s) =>
        StringReads(t, i, s);
        NoNumber(t, i);
      case _ =>
  }

  lemma NoNumber(t: Text, i: nat)
    requires At(t, i) == '"'
    ensures !StartsNumber(t, i)
  {
  }

  // ----------------------------------------------------- steps of the parser

  /** Spaces in front do not matter. */
  lemma {:induction false} SkipsLead(k: nat, t: Text, i: nat)
    requires 1 <= k <= 14 && i <= |t|
    ensures Read(k, t, i) == Read(k, t, SkipSpaces(t, i))
    decreases 14 - k
  {
    hide SkipSpaces, ParseSuffixes, ParseTail, ParseCommaTail, ParseBranches, ParseValue, Starts, FirstOp;
    SkipTwice(t, i);
    if k < 14 {
      SkipsLead(k + 1, t, i);
    }
  }

  /** What is read is the tree, and its text ends at `end` but for spaces. */
  predicate Gives(s: Parse, e: Expr, t: Text, end: nat)
    requires end <= |t|
  {
    s.Ok? && s.expr == e && s.pos <= |t| && SkipSpaces(t, s.pos) == SkipSpaces(t, end)
  }

  /** At strengths that group to the left, what binds tighter is read, and then the loop goes on. */
  lemma ReadChains(k: nat, t: Text, i: nat, e: Expr, end: nat)
    requires Chains(k) && i <= |t| && end <= |t| && Gives(Read(k + 1, t, i), e, t, end)
    ensures Read(k, t, i) == Tail(k, t, end, e)
  {
    hide SkipSpaces, ParseSuffixes, ParseTail, ParseCommaTail, ParseAssignment, ParseBrace;
    var p := Read(k + 1, t, i).pos;
    SameTail(k, t, p, end, e);
  }

  lemma {:induction false} SameTail(k: nat, t: Text, p: nat, q: nat, e: Expr)
    requires Chains(k) && p <= |t| && q <= |t| && SkipSpaces(t, p) == SkipSpaces(t, q)
    ensures Tail(k, t, p, e) == Tail(k, t, q, e)
  {
    hide SkipSpaces, FirstOp, Starts, Operators, Guard, ParseBrace, ParseCall, ParseLevel, ParseAssignment;
  }

  lemma {:induction false} TailStops(k: nat, t: Text, p: nat, e: Expr)
    requires Chains(k) && p <= |t| && Stops(t, SkipSpaces(t, p), k)
    ensures Tail(k, t, p, e) == Ok(e, SkipSpaces(t, p))
  {
    hide SkipSpaces, FirstOp, Starts, Operators, Guard, ParseBrace, ParseCall, ParseLevel, ParseAssignment;
  }

  // ------------------------------------------------------------- round trip

  /** How far the reading of a tree is from its own strength; above it, there are parentheses to go through first. */
  function Rank(e: Expr, k: nat): nat
    requires k <= 14
  {
    if k > Own(e) then 29 - k else Own(e) - k
  }

  lemma {:induction false} Reads(t: Text, i: nat, e: Expr, k: nat)
    requires 1 <= k <= 14 && Fine(e) && Starts(t, i, Print(e, k)) && i + |Print(e, k)| <= |t|
    requires Follows(t, i + |Print(e, k)|, k)
    ensures Gives(Read(k, t, i), e, t, i + |Print(e, k)|)
    decreases e, Rank(e, k), 3
  {
    hide SkipSpaces, Starts, Fine, Read, Tail, Stops, Body;
    var end := i + |Print(e, k)|;
    SkipTwice(t, end);
    OwnTells(e);
    if Chains(k) {
      Leads(t, i, e, k);
      TailStops(k, t, end, e);
    } else if k == 14 {
      if Own(e) == 14 {
        AtomReads(t, i, e);
      } else {
        ParenthesesRead(t, i, e);
      }
    } else if Own(e) != k {
      TighterFollows(t, end, k, k + 1);
      Reads(t, i, e, k + 1);
      PassesUp(t, i, e, k);
    } else if k == 12 {
      PrefixReads(t, i, e);
    } else if k == 3 {
      ChoiceReads(t, i, e);
    } else {
      AssignReads(t, i, e);
    }
  }

  lemma AtomReads(t: Text, i: nat, e: Expr)
    requires Own(e) == 14 && Fine(e) && Starts(t, i, Print(e, 14)) && i + |Print(e, 14)| <= |t|
    requires Follows(t, i + |Print(e, 14)|, 14)
    ensures Gives(Read(14, t, i), e, t, i + |Print(e, 14)|)
  {
    hide SkipSpaces, Starts, Fine, Stops, ParseBrace;
    OwnTells(e);
    ValueReads(t, i, e);
  }

  lemma OwnTells(e: Expr)
    requires Fine(e)
    ensures Own(e) == 14 ==> e.Literal? || e.Name?
    ensures (Own(e) == 12 ==> e.Prefix?) && (Own(e) == 3 ==> e.Choice?) && (Own(e) == 2 ==> e.Assign?)
    ensures e.Binary? ==> e.op != "" && IsBinary(e.op)
  {
  }

  /** What needs no operator of a strength is read at that strength as at the next. */
  lemma {:induction false} PassesUp(t: Text, i: nat, e: Expr, k: nat)
    requires (k == 2 || k == 3 || k == 12) && Fine(e) && Own(e) != k && i + |Print(e, k)| <= |t|
    requires Starts(t, i, Print(e, k)) && Follows(t, i + |Print(e, k)|, k)
    requires Gives(Read(k + 1, t, i), e, t, i + |Print(e, k + 1)|)
    ensures Print(e, k) == Print(e, k + 1)
    ensures Gives(Read(k, t, i), e, t, i + |Print(e, k)|)
  {
    hide SkipSpaces, Fine, Body, ParseLevel, ParsePostfix, FirstOp, Operators, Guard, Starts;
    assert Print(e, k) == Print(e, k + 1);
    SkipTwice(t, i + |Print(e, k)|);
    if k == 12 {
      NoPrefix(t, i, e);
    } else {
      assert Stops(t, SkipSpaces(t, i + |Print(e, k)|), k);
    }
  }

  lemma NoPrefix(t: Text, i: nat, e: Expr)
    requires Fine(e) && i <= |t| && Starts(t, i, Print(e, 13))
    ensures Read(12, t, i) == Read(13, t, i)
  {
    hide Fine, Print, ParsePostfix, Starts, FirstOp;
    StandsAt(t, i, e, 13);
    SkipsNone(t, i);
    NoOperator(t, i, ["~", "!"]);
  }

  lemma {:induction false} Leads(t: Text, i: nat, e: Expr, k: nat)
    requires Chains(k) && Fine(e) && Starts(t, i, Print(e, k)) && i + |Print(e, k)| <= |t|
    requires Follows(t, i + |Print(e, k)|, k + 1)
    ensures Read(k, t, i) == Tail(k, t, i + |Print(e, k)|, e)
    decreases e, Rank(e, k), 2
  {
    hide SkipSpaces, Starts, Fine, Read, Tail, Stops, Body;
    if Own(e) != k {
      assert Print(e, k) == Print(e, k + 1);
      Reads(t, i, e, k + 1);
      ReadChains(k, t, i, e, i + |Print(e, k)|);
    } else {
      OwnLeads(t, i, e, k);
    }
  }

  lemma {:induction false} OwnLeads(t: Text, i: nat, e: Expr, k: nat)
    requires Chains(k) && Fine(e) && Own(e) == k && Starts(t, i, Body(e)) && i + |Body(e)| <= |t|
    requires Follows(t, i + |Body(e)|, k + 1)
    ensures Read(k, t, i) == Tail(k, t, i + |Body(e)|, e)
    decreases e, 0, 1
  {
    hide SkipSpaces, Starts, Read, Tail, Stops, Print, Strength, Follows, Body, Fine;
    match e
    case Binary(_, _, _) => BinaryLeads(t, i, e);
    case Comma(_, _) => CommaLeads(t, i, e);
    case Member(_, _) => MemberLeads(t, i, e);
    case Indexed(_) => IndexedLeads(t, i, e);
    case Apply(_, _) => ApplyLeads(t, i, e);
    case _ =>
  }

  /** A tree that stands behind a space */
  lemma Behind(t: Text, q: nat, e: Expr, k: nat)
    requires q < |t| && t[q] == ' ' && Fine(e) && 1 <= k <= 14 && Starts(t, q + 1, Print(e, k))
    ensures Read(k, t, q) == Read(k, t, q + 1)
  {
    hide SkipSpaces, Starts, Read, Fine, Print;
    StandsAt(t, q + 1, e, k);
    SkipsOne(t, q);
    SkipsLead(k, t, q);
  }

  // Of the trees that follow, each is tied together by an operator of its own.

  lemma {:induction false} BinaryLeads(t: Text, i: nat, e: Expr)
    requires e.Binary? && Fine(e) && Starts(t, i, Body(e)) && i + |Body(e)| <= |t|
    requires Follows(t, i + |Body(e)|, Own(e) + 1)
    ensures Read(Own(e), t, i) == Tail(Own(e), t, i + |Body(e)|, e)
    decreases e, 0, 0
  {
    hide SkipSpaces, Starts, Read, Tail, Stops, Print, Strength, Follows, Infix;
    var k, op, l, r := Own(e), e.op, e.left, e.right;
    OwnTells(e);
    InfixParts(t, i, Print(l, k), op, Print(r, k + 1));
    var p := i + |Print(l, k)|;
    var q := p + 1 + |op|;
    TokenFollows(t, p, op, k + 1);
    Leads(t, i, l, k);
    Behind(t, q, r, k + 1);
    Reads(t, q + 1, r, k + 1);
    BinaryTail(t, p, op, l, r, i + |Body(e)|);
  }

  lemma {:induction false} BinaryTail(t: Text, p: nat, op: string, l: Expr, r: Expr, end: nat)
    requires IsBinary(op) && op != "" && p + 1 + |op| <= |t| && end <= |t|
    requires SkipSpaces(t, p) == p + 1 && Starts(t, p + 1, op + " ")
    requires Gives(Read(Strength(op) + 1, t, p + 1 + |op|), r, t, end)
    ensures Tail(Strength(op), t, p, l) == Tail(Strength(op), t, end, Binary(op, l, r))
  {
    hide SkipSpaces, Starts, FirstOp, Operators, Guard, ParseLevel, Strength;
    PicksOperator(t, p + 1, op);
    SameTail(Strength(op), t, Read(Strength(op) + 1, t, p + 1 + |op|).pos, end, Binary(op, l, r));
  }

  lemma {:induction false} CommaLeads(t: Text, i: nat, e: Expr)
    requires e.Comma? && Fine(e) && Starts(t, i, Body(e)) && i + |Body(e)| <= |t|
    requires Follows(t, i + |Body(e)|, 2)
    ensures Read(1, t, i) == Tail(1, t, i + |Body(e)|, e)
    decreases e, 0, 0
  {
    hide SkipSpaces, Starts, Read, Tail, Stops, Print, Follows, Infix;
    var l, r, end := e.left, e.right, i + |Body(e)|;
    InfixParts(t, i, Print(l, 1), ",", Print(r, 2));
    var p := i + |Print(l, 1)|;
    TokenFollows(t, p, ",", 2);
    Leads(t, i, l, 1);
    Behind(t, p + 2, r, 2);
    Reads(t, p + 3, r, 2);
    CommaGoesOn(t, p, l, r, end);
  }

  lemma {:induction false} CommaGoesOn(t: Text, p: nat, l: Expr, r: Expr, end: nat)
    requires p + 2 <= |t| && end <= |t| && SkipSpaces(t, p) == p + 1 && Starts(t, p + 1, "," + " ")
    requires Gives(Read(2, t, p + 2), r, t, end)
    ensures Tail(1, t, p, l) == Tail(1, t, end, Comma(l, r))
  {
    hide SkipSpaces, Starts, ParseAssignment;
    TokenStarts(t, p + 1, ",");
    SameTail(1, t, Read(2, t, p + 2).pos, end, Comma(l, r));
  }

  lemma TokenStarts(t: Text, j: nat, tok: string)
    requires Starts(t, j, tok + " ")
    ensures Starts(t, j, tok)
  {
    StartsBoth(t, j, tok, " ");
  }

  /** The suffix that a character starts */
  lemma PicksSuffix(t: Text, j: nat)
    ensures At(t, j) == '.' ==> FirstOp(t, j, ["[", "(", "."]) == "."
    ensures At(t, j) == '[' ==> FirstOp(t, j, ["[", "(", "."]) == "["
    ensures At(t, j) == '(' ==> FirstOp(t, j, ["[", "(", "."]) == "("
  {
    hide FirstOp, Starts;
    var ops := ["[", "(", "."];
    StartsLooks(t, j, "[");
    StartsLooks(t, j, "(");
    StartsLooks(t, j, ".");
    if At(t, j) == '.' {
      OneStarts(t, j, ops, 2);
    } else if At(t, j) == '[' {
      OneStarts(t, j, ops, 0);
    } else if At(t, j) == '(' {
      OneStarts(t, j, ops, 1);
    }
  }

  lemma SuffixFollows(t: Text, p: nat)
    requires p + 1 < |t| && t[p] == ' ' && (t[p + 1] == '.' || t[p + 1] == '[' || t[p + 1] == '(')
    ensures Follows(t, p, 14) && SkipSpaces(t, p) == p + 1
  {
    SkipsOne(t, p);
  }

  lemma {:induction false} MemberLeads(t: Text, i: nat, e: Expr)
    requires e.Member? && Fine(e) && Starts(t, i, Body(e)) && i + |Body(e)| <= |t|
    requires Follows(t, i + |Body(e)|, 14)
    ensures Read(13, t, i) == Tail(13, t, i + |Body(e)|, e)
    decreases e, 0, 0
  {
    hide SkipSpaces, Starts, Read, Tail, Stops, Print, Follows, Infix;
    match e
    case Member(o, m) =>
      var end := i + |Body(e)|;
      InfixParts(t, i, Print(o, 13), ".", Print(m, 14));
      var p := i + |Print(o, 13)|;
      StartsAt(t, p + 1, "." + " ");
      assert t[p + 1 + 0] == ("." + " ")[0];
      SuffixFollows(t, p);
      Leads(t, i, o, 13);
      Behind(t, p + 2, m, 14);
      Reads(t, p + 3, m, 14);
      MemberGoesOn(t, p, o, m, end);
  }

  lemma {:induction false} MemberGoesOn(t: Text, p: nat, o: Expr, m: Expr, end: nat)
    requires p + 2 <= |t| && end <= |t| && SkipSpaces(t, p) == p + 1 && t[p + 1] == '.'
    requires Gives(Read(14, t, p + 2), m, t, end)
    ensures Tail(13, t, p, o) == Tail(13, t, end, Member(o, m))
  {
    hide SkipSpaces, Starts, FirstOp, ParseBrace, ParseCall;
    PicksSuffix(t, p + 1);
    SameTail(13, t, Read(14, t, p + 2).pos, end, Member(o, m));
  }

  lemma {:induction false} IndexedLeads(t: Text, i: nat, e: Expr)
    requires e.Indexed? && Fine(e) && Starts(t, i, Body(e)) && i + |Body(e)| <= |t|
    ensures Read(13, t, i) == Tail(13, t, i + |Body(e)|, e)
    decreases e, 0, 0
  {
    hide SkipSpaces, Starts, Read, Tail, Stops, Print, Follows;
    match e
    case Indexed(o) =>
      StartsBoth(t, i, Print(o, 13), " []");
      var p := i + |Print(o, 13)|;
      assert " []" == " [" + "]";
      StartsBoth(t, p, " [", "]");
      TwoChars(t, p, ' ', '[');
      OneChar(t, p + 2, ']');
      SuffixFollows(t, p);
      Leads(t, i, o, 13);
      IndexGoesOn(t, p, o);
  }

  lemma {:induction false} IndexGoesOn(t: Text, p: nat, o: Expr)
    requires p + 2 < |t| && SkipSpaces(t, p) == p + 1 && t[p + 1] == '[' && t[p + 2] == ']'
    ensures Tail(13, t, p, o) == Tail(13, t, p + 3, Indexed(o))
  {
    hide SkipSpaces, Starts, FirstOp, ParseBrace, ParseCall;
    PicksSuffix(t, p + 1);
    SkipsNone(t, p + 2);
    StartsAt(t, p + 2, "]");
  }

  lemma {:induction false} ApplyLeads(t: Text, i: nat, e: Expr)
    requires e.Apply? && Fine(e) && Starts(t, i, Body(e)) && i + |Body(e)| <= |t|
    ensures Read(13, t, i) == Tail(13, t, i + |Body(e)|, e)
    decreases e, 0, 0
  {
    hide SkipSpaces, Starts, Read, Tail, Stops, Print, Follows, PrintAll;
    match e
    case Apply(f, args) =>
      var a, b := Print(f, 13), PrintAll(args);
      assert Body(e) == a + (" (" + (b + ")"));
      var p := i + |a|;
      StartsBoth(t, i, a, " (" + (b + ")"));
      StartsBoth(t, p, " (", b + ")");
      StartsBoth(t, p + 2, b, ")");
      TwoChars(t, p, ' ', '(');
      OneChar(t, p + 2 + |b|, ')');
      SuffixFollows(t, p);
      Leads(t, i, f, 13);
      EndFollows(t, p + 2 + |b|, 2);
      if args.AndExpr? {
        ArgumentsLead(t, p + 2, f, args);
        AllStandAt(t, p + 2, args);
      }
      CallGoesOn(t, p, f, args);
  }

  /** Behind arguments that were read */
  function MoreArguments(t: Text, p: nat, f: Expr, args: Exprs): Parse
    requires p <= |t|
  {
    var j := SkipSpaces(t, p);
    if Starts(t, j, ",") then ParseArguments(t, j + 1, f, args) else Ok(Apply(f, args), j)
  }

  lemma {:induction false} CallGoesOn(t: Text, p: nat, f: Expr, args: Exprs)
    requires var end := p + 2 + |PrintAll(args)|;
      && end < |t| && SkipSpaces(t, p) == p + 1 && t[p + 1] == '(' && t[end] == ')' && SkipSpaces(t, end) == end
      && (args.AndExpr? ==>
            At(t, p + 2) != ')' && ParseArguments(t, p + 2, f, NoExprs) == MoreArguments(t, end, f, args))
    ensures Tail(13, t, p, f) == Tail(13, t, p + 3 + |PrintAll(args)|, Apply(f, args))
  {
    hide SkipSpaces, Starts, FirstOp, ParseBrace, ParseArguments;
    var end := p + 2 + |PrintAll(args)|;
    PicksSuffix(t, p + 1);
    StartsLooks(t, end, ",");
    StartsLooks(t, end, ")");
    assert ParseCall(t, p + 2, f) == Ok(Apply(f, args), end + 1);
  }

  lemma {:induction false} AllStandAt(t: Text, i: nat, args: Exprs)
    requires AllFine(args) && args.AndExpr? && Starts(t, i, PrintAll(args))
    ensures i < |t| && t[i] != ')'
    decreases args
  {
    hide Starts, Print, Fine;
    if args.init.NoExprs? {
      StandsAt(t, i, args.last, 2);
    } else {
      InfixParts(t, i, PrintAll(args.init), ",", Print(args.last, 2));
      AllStandAt(t, i, args.init);
    }
  }

  /** A list of arguments is read as it was printed, with those before as the list so far. */
  lemma {:induction false} ArgumentsLead(t: Text, i: nat, f: Expr, args: Exprs)
    requires AllFine(args) && args.AndExpr? && Starts(t, i, PrintAll(args)) && i + |PrintAll(args)| <= |t|
    requires Follows(t, i + |PrintAll(args)|, 2)
    ensures ParseArguments(t, i, f, NoExprs) == MoreArguments(t, i + |PrintAll(args)|, f, args)
    decreases args, 0, 0
  {
    hide SkipSpaces, Starts, Stops, Print, Follows, Fine, ParseArguments, Read, Infix;
    var end := i + |PrintAll(args)|;
    if args.init.NoExprs? {
      Reads(t, i, args.last, 2);
      ArgumentRead(t, i, f, NoExprs, args.last, end);
    } else {
      InfixParts(t, i, PrintAll(args.init), ",", Print(args.last, 2));
      var p := i + |PrintAll(args.init)|;
      TokenFollows(t, p, ",", 2);
      ArgumentsLead(t, i, f, args.init);
      TokenStarts(t, p + 1, ",");
      Behind(t, p + 2, args.last, 2);
      Reads(t, p + 3, args.last, 2);
      ArgumentRead(t, p + 2, f, args.init, args.last, end);
    }
  }

  lemma {:induction false} ArgumentRead(t: Text, i: nat, f: Expr, done: Exprs, e: Expr, end: nat)
    requires i <= |t| && end <= |t| && Gives(Read(2, t, i), e, t, end)
    ensures ParseArguments(t, i, f, done) == MoreArguments(t, end, f, AndExpr(done, e))
  {
    hide SkipSpaces, Starts, ParseAssignment;
  }

  lemma {:induction false} PrefixReads(t: Text, i: nat, e: Expr)
    requires e.Prefix? && Fine(e) && Starts(t, i, Body(e)) && i + |Body(e)| <= |t|
    requires Follows(t, i + |Body(e)|, 12)
    ensures Gives(Read(12, t, i), e, t, i + |Body(e)|)
    decreases e, 0, 0
  {
    hide SkipSpaces, Starts, Stops, Print, Follows, Read;
    match e
    case Prefix(op, o) =>
      StartsBoth(t, i, op, Print(o, 12));
      Reads(t, i + 1, o, 12);
      PrefixGoesOn(t, i, op);
  }

  lemma {:induction false} PrefixGoesOn(t: Text, i: nat, op: string)
    requires (op == "!" || op == "~") && Starts(t, i, op) && i < |t|
    ensures Read(12, t, i) ==
      match Read(12, t, i + 1) case Bad => Bad case Ok(e, p) => Ok(Prefix(op, e), p)
  {
    hide SkipSpaces, FirstOp, ParsePostfix, Starts;
    StartsLooks(t, i, op);
    StartsLooks(t, i, "~");
    StartsLooks(t, i, "!");
    SkipsNone(t, i);
    OneStarts(t, i, ["~", "!"], if op == "~" then 0 else 1);
  }

  lemma {:induction false} ChoiceReads(t: Text, i: nat, e: Expr)
    requires e.Choice? && Fine(e) && Starts(t, i, Body(e)) && i + |Body(e)| <= |t|
    requires Follows(t, i + |Body(e)|, 3)
    ensures Gives(Read(3, t, i), e, t, i + |Body(e)|)
    decreases e, 0, 0
  {
    hide SkipSpaces, Starts, Stops, Print, Follows, Read, Infix;
    match e
    case Choice(c, yes, no) =>
      var a, b, d, end := Print(c, 4), Print(yes, 4), Print(no, 4), i + |Body(e)|;
      InfixParts(t, i, a, "?", Infix(b, ":", d));
      var p := i + |a|;
      InfixParts(t, p + 3, b, ":", d);
      var q := p + 3 + |b|;
      TokenFollows(t, p, "?", 4);
      Reads(t, i, c, 4);
      TokenFollows(t, q, ":", 4);
      Behind(t, p + 2, yes, 4);
      Reads(t, p + 3, yes, 4);
      TighterFollows(t, end, 3, 4);
      Behind(t, q + 2, no, 4);
      Reads(t, q + 3, no, 4);
      ChoiceGoesOn(t, i, p, q, c, yes, no, end);
  }

  lemma {:induction false} ChoiceGoesOn(t: Text, i: nat, p: nat, q: nat, c: Expr, yes: Expr, no: Expr, end: nat)
    requires i <= |t| && p + 2 <= |t| && q + 2 <= |t| && end <= |t|
    requires SkipSpaces(t, p) == p + 1 && Starts(t, p + 1, "?" + " ")
    requires SkipSpaces(t, q) == q + 1 && Starts(t, q + 1, ":" + " ")
    requires Gives(Read(4, t, i), c, t, p)
    requires Gives(Read(4, t, p + 2), yes, t, q) && Gives(Read(4, t, q + 2), no, t, end)
    ensures Gives(Read(3, t, i), Choice(c, yes, no), t, end)
  {
    hide SkipSpaces, Starts, ParseLevel;
    TokenStarts(t, p + 1, "?");
    TokenStarts(t, q + 1, ":");
    var y, n := Read(4, t, p + 2), Read(4, t, q + 2);
    assert ParseBranches(t, p + 2, c) == Ok(Choice(c, yes, no), n.pos);
  }

  lemma {:induction false} AssignReads(t: Text, i: nat, e: Expr)
    requires e.Assign? && Fine(e) && Starts(t, i, Body(e)) && i + |Body(e)| <= |t|
    requires Follows(t, i + |Body(e)|, 2)
    ensures Gives(Read(2, t, i), e, t, i + |Body(e)|)
    decreases e, 0, 0
  {
    hide SkipSpaces, Starts, Stops, Print, Follows, Read, Infix;
    match e
    case Assign(target, value) =>
      var end := i + |Body(e)|;
      InfixParts(t, i, Print(target, 3), "=", Print(value, 3));
      var p := i + |Print(target, 3)|;
      TokenFollows(t, p, "=", 3);
      Reads(t, i, target, 3);
      TighterFollows(t, end, 2, 3);
      Behind(t, p + 2, value, 3);
      Reads(t, p + 3, value, 3);
      AssignGoesOn(t, i, p, target, value, end);
  }

  lemma {:induction false} AssignGoesOn(t: Text, i: nat, p: nat, target: Expr, value: Expr, end: nat)
    requires i <= |t| && p + 2 <= |t| && end <= |t| && SkipSpaces(t, p) == p + 1 && Starts(t, p + 1, "=" + " ")
    requires Gives(Read(3, t, i), target, t, p) && Gives(Read(3, t, p + 2), value, t, end)
    ensures Gives(Read(2, t, i), Assign(target, value), t, end)
  {
    hide SkipSpaces, Starts, ParseConditional;
    TokenStarts(t, p + 1, "=");
  }

  lemma {:induction false} ParenthesesRead(t: Text, i: nat, e: Expr)
    requires Own(e) < 14 && Fine(e) && Starts(t, i, Print(e, 14)) && i + |Print(e, 14)| <= |t|
    ensures Gives(Read(14, t, i), e, t, i + |Print(e, 14)|)
    decreases e, 15, 0
  {
    hide SkipSpaces, Starts, Stops, Follows, Read, Body;
    var b := Body(e);
    OwnIsPositive(e);
    assert Print(e, 14) == "(" + (b + ")") && Print(e, 1) == b;
    StartsBoth(t, i, "(", b + ")");
    StartsBoth(t, i + 1, b, ")");
    OneChar(t, i, '(');
    OneChar(t, i + 1 + |b|, ')');
    EndFollows(t, i + 1 + |b|, 1);
    Reads(t, i + 1, e, 1);
    BraceGoesOn(t, i, e, i + 1 + |b|);
  }

  lemma OwnIsPositive(e: Expr)
    requires Fine(e)
    ensures Own(e) >= 1
  {
  }

  lemma {:induction false} BraceGoesOn(t: Text, i: nat, e: Expr, p: nat)
    requires i < |t| && t[i] == '(' && Starts(t, i, "(") && p < |t| && Starts(t, p, ")") && SkipSpaces(t, p) == p
    requires Gives(Read(1, t, i + 1), e, t, p)
    ensures Gives(Read(14, t, i), e, t, p + 1)
  {
    hide SkipSpaces, Starts, ParseComma, ParseValue;
    SkipsNone(t, i);
  }

  // ------------------------------------------------------------ main results

  lemma {:induction false} NoEnd(e: Expr, k: nat)
    requires Fine(e)
    ensures '\0' !in Print(e, k)
    decreases e, 1
  {
    hide Body, Fine;
    BodyNoEnd(e);
  }

  lemma {:induction false} BodyNoEnd(e: Expr)
    requires Fine(e)
    ensures '\0' !in Body(e)
    decreases e, 0
  {
    hide Print, PrintAll, Strength, NumberText;
    match e
    case Literal(attr) => LiteralNoEnd(attr);
    case Name(_) =>
    case Member(o, m) =>
      NoEnd(o, 13);
      NoEnd(m, 14);
    case Indexed(o) => NoEnd(o, 13);
    case Apply(f, args) =>
      NoEnd(f, 13);
      AllNoEnd(args);
    case Prefix(op, o) => NoEnd(o, 12);
    case Binary(op, l, r) =>
      NoEnd(l, Strength(op));
      NoEnd(r, Strength(op) + 1);
      BinaryNoEnd(op);
    case Choice(c, yes, no) =>
      NoEnd(c, 4);
      NoEnd(yes, 4);
      NoEnd(no, 4);
    case Assign(target, value) =>
      NoEnd(target, 3);
      NoEnd(value, 3);
    case Comma(l, r) =>
      NoEnd(l, 1);
      NoEnd(r, 2);
  }

  lemma BinaryNoEnd(op: string)
    requires IsBinary(op)
    ensures '\0' !in op
  {
  }

  lemma LiteralNoEnd(attr: Attr)
    requires Fine(Literal(attr))
    ensures '\0' !in LiteralText(attr)
  {
    hide NumberText;
    if attr.IntAttr? {
      NumberNoEnd(attr.num);
    } else if attr.DoubleAttr? {
      NumberNoEnd(attr.whole);
    }
  }

  lemma NumberNoEnd(n: int)
    ensures '\0' !in NumberText(n)
  {
  }

  lemma {:induction false} AllNoEnd(args: Exprs)
    requires AllFine(args)
    ensures '\0' !in PrintAll(args)
    decreases args, 0
  {
    hide Print, Fine;
    if args.AndExpr? {
      AllNoEnd(args.init);
      NoEnd(args.last, 2);
    }
  }

  /** The text of a tree */
  function TextOf(e: Expr): Text
    requires Fine(e)
  {
    NoEnd(e, 1);
    Print(e, 1)
  }

  /** Main result: the text of a tree is read as that tree, to its end. */
  lemma RoundTrip(e: Expr)
    requires Fine(e)
    ensures ParseComma(TextOf(e), 0) == Ok(e, |TextOf(e)|)
  {
    hide Print, Fine, Tail, ParseComma, Stops;
    var t := TextOf(e);
    assert t[0..|t|] == t;
    EndFollows(t, |t|, 1);
    TighterFollows(t, |t|, 1, 2);
    Leads(t, 0, e, 1);
    TailStops(1, t, |t|, e);
  }

  /** Different trees have different texts. */
  lemma TextsDiffer(e: Expr, f: Expr)
    requires Fine(e) && Fine(f) && TextOf(e) == TextOf(f)
    ensures e == f
  {
    hide ParseComma, TextOf, Fine;
    RoundTrip(e);
    RoundTrip(f);
  }
}
