/** The LALR(1) automaton of the configuration grammar. */
module ConfigTables {
  // The first half is the parser's own data: the tables yypact, yydefact, yytable, yycheck,
  // yypgoto, yydefgoto, yyr1, yyr2, yyprhs and yyrhs, entry for entry, and the two lookups the
  // parser makes in them, Action and Goto. The second half is the automaton those tables are meant
  // to encode: the item sets, the predecessor relation, and the FIRST and FOLLOW sets. The lemmas
  // at the end say that the tables do encode it; everything proved about the parser uses the tables
  // through those lemmas only.
  //
  // Symbols are numbered as in the parser: 0 is the end of input, 1..22 are terminals and 23..41
  // nonterminals. A table entry equal to the most frequent value of its table is not listed but
  // left to the default case.

  const YYPACT_NINF: int := -19
  const YYTABLE_NINF: int := -1
  const YYLAST: int := 33
  const YYFINAL: int := 6
  const YYNTOKENS: int := 23
  const NSTATES: int := 45

  // Offset of a state's row in yytable.
  function YyPact(state: int): int {
    match state
    case 0 => -1 case 2 => 12 case 3 => -1 case 5 => 3 case 8 => -2 case 21 => -5 case 22 => 8 case 25 => 21
    case 26 => -2 case 27 => -1 case 31 => 1 case 32 => 5 case 34 => 4 case 35 => 15 case 36 => -1 case 37 => 13
    case 38 => 21 case 40 => -2
    case _ => -19
  }

  // Rule a state reduces by when yytable does not say otherwise; 0 is an error.
  function YyDefact(state: int): int {
    match state
    case 0 => 2 case 1 => 8 case 3 => 3 case 4 => 4 case 6 => 1 case 7 => 5 case 9 => 20 case 10 => 21
    case 11 => 23 case 12 => 22 case 13 => 24 case 14 => 25 case 15 => 18 case 16 => 10 case 17 => 12 case 18 => 35
    case 19 => 15 case 20 => 16 case 22 => 26 case 23 => 14 case 24 => 17 case 25 => 33 case 26 => 29 case 27 => 6
    case 28 => 9 case 29 => 19 case 30 => 31 case 31 => 34 case 33 => 27 case 34 => 30 case 36 => 7 case 39 => 11
    case 41 => 13 case 42 => 36 case 43 => 32 case 44 => 28
    case _ => 0
  }

  // Where to shift or go to.
  function YyTable(index: int): int {
    match index
    case 1 => 9 case 2 => 10 case 3 => 11 case 4 => 12 case 5 => 13 case 6 => 14 case 7 => 15 case 8 => 33
    case 9 => 1 case 10 => 30 case 11 => 16 case 12 => 6 case 13 => 17 case 14 => 8 case 15 => 28 case 16 => 18
    case 17 => 29 case 18 => 38 case 19 => 39 case 20 => 36 case 21 => 40 case 22 => 44 case 23 => 43 case 24 => 9
    case 25 => 10 case 26 => 11 case 27 => 12 case 28 => 13 case 29 => 14 case 30 => 15 case 31 => 41 case 32 => 42
    case _ => 7
  }

  // The symbol (or, for gotos, the state) a yytable entry belongs to.
  function YyCheck(index: int): int {
    match index
    case 0 => 3 case 1 => 3 case 2 => 4 case 3 => 5 case 4 => 6 case 5 => 7 case 6 => 8 case 8 => 26
    case 9 => 10 case 10 => 25 case 11 => 13 case 12 => 0 case 13 => 15 case 14 => 11 case 15 => 20 case 16 => 18
    case 18 => 17 case 19 => 14 case 20 => 27 case 21 => 17 case 22 => 40 case 23 => 38 case 24 => 3 case 25 => 4
    case 26 => 5 case 27 => 6 case 28 => 7 case 29 => 8 case 31 => 16 case 32 => 19 case 33 => 36
    case _ => 9
  }

  // Offset of a nonterminal's column in yytable.
  function YyPgoto(nonterm: int): int {
    match nonterm
    case 2 => -7 case 4 => -3 case 10 => -18 case 12 => -15
    case _ => -19
  }

  // Where a nonterminal goes when yytable does not say otherwise.
  function YyDefgoto(nonterm: int): int {
    match nonterm
    case 1 => 2 case 2 => 3 case 3 => 37 case 4 => 4 case 5 => 5 case 6 => 19 case 7 => 25 case 8 => 20
    case 9 => 26 case 10 => 21 case 11 => 22 case 12 => 23 case 13 => 34 case 14 => 35 case 15 => 31 case 16 => 32
    case 17 => 24 case 18 => 27
    case _ => -1
  }

  // The nonterminal on the left of a rule.
  function YyR1(rule: int): int {
    match rule
    case 0 => 0 case 1 => 23 case 2 => 24 case 3 => 24 case 4 => 25 case 5 => 25 case 6 => 26 case 7 => 26
    case 8 => 28 case 9 => 27 case 10 => 30 case 11 => 29 case 12 => 32 case 13 => 31 case 14 => 33 case 15 => 33
    case 16 => 33 case 17 => 33 case 18 => 34 case 19 => 34 case 27 => 36 case 28 => 36 case 29 => 37 case 30 => 37
    case 31 => 38 case 32 => 38 case 33 => 39 case 34 => 39 case 35 => 41 case 36 => 40
    case _ => 35
  }

  // The number of symbols on the right of a rule.
  function YyR2(rule: int): int {
    match rule
    case 0 => 0 case 1 => 2 case 2 => 0 case 5 => 2 case 6 => 0 case 8 => 0 case 9 => 5 case 10 => 0
    case 11 => 4 case 12 => 0 case 13 => 4 case 19 => 2 case 28 => 3 case 29 => 0 case 32 => 3 case 33 => 0
    case 35 => 0 case 36 => 4
    case _ => 1
  }

  // The symbol a state is entered on.
  function YyStos(state: int): int {
    match state
    case 0 => 0 case 1 => 10 case 2 => 24 case 3 => 25 case 4 => 27 case 5 => 28 case 6 => 0 case 7 => 27
    case 8 => 11 case 9 => 3 case 10 => 4 case 11 => 5 case 12 => 6 case 13 => 7 case 14 => 8 case 16 => 13
    case 17 => 15 case 18 => 18 case 19 => 29 case 20 => 31 case 21 => 33 case 22 => 34 case 23 => 35 case 24 => 40
    case 25 => 30 case 26 => 32 case 27 => 41 case 28 => 20 case 30 => 35 case 31 => 38 case 32 => 39 case 33 => 33
    case 34 => 36 case 35 => 37 case 36 => 25 case 37 => 26 case 38 => 17 case 39 => 14 case 40 => 17 case 41 => 16
    case 42 => 19 case 43 => 35 case 44 => 33
    case _ => 9
  }

  // The symbol at position d on the right of a rule (the rows of yyrhs, as delimited by yyprhs).
  function RhsAt(rule: int, d: int): int {
    match rule
    case 1 => if d == 0 then 24 else 0
    case 3 => 25
    case 4 => 27
    case 5 => if d == 0 then 25 else 27
    case 7 => 25
    case 9 => if d == 0 then 10 else if d == 1 then 28 else if d == 2 then 11 else if d == 3 then 33 else 20
    case 11 => if d == 0 then 13 else if d == 1 then 30 else if d == 2 then 39 else 14
    case 13 => if d == 0 then 15 else if d == 1 then 32 else if d == 2 then 37 else 16
    case 14 => 35
    case 15 => 29
    case 16 => 31
    case 17 => 40
    case 18 => 9
    case 19 => if d == 0 then 34 else 9
    case 20 => 3
    case 21 => 4
    case 22 => 6
    case 23 => 5
    case 24 => 7
    case 25 => 8
    case 26 => 34
    case 27 => 33
    case 28 => if d == 0 then 36 else if d == 1 then 17 else 33
    case 30 => 36
    case 31 => 35
    case 32 => if d == 0 then 38 else if d == 1 then 17 else 35
    case 34 => 38
    case 36 => if d == 0 then 18 else if d == 1 then 41 else if d == 2 then 26 else 19
    case _ => -1
  }

  datatype Move = Shift(state: int) | Reduce(rule: int) | Accept | Error

  // Label yydefault.
  function DefaultMove(state: int): Move {
    if YyDefact(state) == 0 then Error else Reduce(YyDefact(state))
  }

  // Label yybackup: what to do in a state with a given look-ahead symbol.
  function Action(state: int, token: int): Move {
    if YyPact(state) == YYPACT_NINF then DefaultMove(state)
    else
      var n := YyPact(state) + token;
      if n < 0 || YYLAST < n || YyCheck(n) != token then DefaultMove(state)
      else
        var a := YyTable(n);
        if a == 0 || a == YYTABLE_NINF then Error
        else if a < 0 then Reduce(-a)
        else if a == YYFINAL then Accept
        else Shift(a)
  }

  // The end of label yyreduce: the state entered when a nonterminal has been put together on
  // top of a state.
  function Goto(state: int, symbol: int): int {
    var n := YyPgoto(symbol - YYNTOKENS) + state;
    if 0 <= n <= YYLAST && YyCheck(n) == state then YyTable(n) else YyDefgoto(symbol - YYNTOKENS)
  }

  // ---------- the automaton the tables encode ----------

  // State s holds the item of a rule with the dot before position d.
  predicate LrItem(s: int, rule: int, d: int) {
    match rule
    case 1 => (d == 0 && s in {0}) || (d == 1 && s in {2})
    case 2 => d == 0 && s in {0}
    case 3 => (d == 0 && s in {0}) || (d == 1 && s in {3})
    case 4 => (d == 0 && s in {0, 27}) || (d == 1 && s in {4})
    case 5 => (d == 0 && s in {0, 27}) || (d == 1 && s in {3, 36}) || (d == 2 && s in {7})
    case 6 => d == 0 && s in {27}
    case 7 => (d == 0 && s in {27}) || (d == 1 && s in {36})
    case 8 => d == 0 && s in {1}
    case 9 => (d == 0 && s in {0, 3, 27, 36}) || (d == 1 && s in {1}) || (d == 2 && s in {5}) ||
          (d == 3 && s in {8}) || (d == 4 && s in {21}) || (d == 5 && s in {28})
    case 10 => d == 0 && s in {16}
    case 11 => (d == 0 && s in {8, 26, 40}) || (d == 1 && s in {16}) || (d == 2 && s in {25}) ||
          (d == 3 && s in {32}) || (d == 4 && s in {39})
    case 12 => d == 0 && s in {17}
    case 13 => (d == 0 && s in {8, 26, 40}) || (d == 1 && s in {17}) || (d == 2 && s in {26}) ||
          (d == 3 && s in {35}) || (d == 4 && s in {41})
    case 14 => (d == 0 && s in {8, 26, 40}) || (d == 1 && s in {23})
    case 15 => (d == 0 && s in {8, 26, 40}) || (d == 1 && s in {19})
    case 16 => (d == 0 && s in {8, 26, 40}) || (d == 1 && s in {20})
    case 17 => (d == 0 && s in {8, 26, 40}) || (d == 1 && s in {24})
    case 18 => (d == 0 && s in {8, 25, 26, 38, 40}) || (d == 1 && s in {15})
    case 19 => (d == 0 && s in {8, 25, 26, 38, 40}) || (d == 1 && s in {22}) || (d == 2 && s in {29})
    case 20 => (d == 0 && s in {8, 25, 26, 38, 40}) || (d == 1 && s in {9})
    case 21 => (d == 0 && s in {8, 25, 26, 38, 40}) || (d == 1 && s in {10})
    case 22 => (d == 0 && s in {8, 25, 26, 38, 40}) || (d == 1 && s in {12})
    case 23 => (d == 0 && s in {8, 25, 26, 38, 40}) || (d == 1 && s in {11})
    case 24 => (d == 0 && s in {8, 25, 26, 38, 40}) || (d == 1 && s in {13})
    case 25 => (d == 0 && s in {8, 25, 26, 38, 40}) || (d == 1 && s in {14})
    case 26 => (d == 0 && s in {8, 25, 26, 38, 40}) || (d == 1 && s in {22})
    case 27 => (d == 0 && s in {26}) || (d == 1 && s in {33})
    case 28 => (d == 0 && s in {26}) || (d == 1 && s in {34}) || (d == 2 && s in {40}) || (d == 3 && s in {44})
    case 29 => d == 0 && s in {26}
    case 30 => (d == 0 && s in {26}) || (d == 1 && s in {34})
    case 31 => (d == 0 && s in {25}) || (d == 1 && s in {30})
    case 32 => (d == 0 && s in {25}) || (d == 1 && s in {31}) || (d == 2 && s in {38}) || (d == 3 && s in {43})
    case 33 => d == 0 && s in {25}
    case 34 => (d == 0 && s in {25}) || (d == 1 && s in {31})
    case 35 => d == 0 && s in {18}
    case 36 => (d == 0 && s in {8, 26, 40}) || (d == 1 && s in {18}) || (d == 2 && s in {27}) ||
          (d == 3 && s in {37}) || (d == 4 && s in {42})
    case _ => false
  }

  // State s can stand directly above state p on the stack.
  predicate Link(p: int, s: int) {
    (s in {1} && p in {0, 3, 27, 36}) ||
    (s in {2, 3} && p in {0}) ||
    (s in {4} && p in {0, 27}) ||
    (s in {5} && p in {1}) ||
    (s in {7} && p in {3, 36}) ||
    (s in {8} && p in {5}) ||
    (s in {9, 10, 11, 12, 13, 14, 15, 22} && p in {8, 25, 26, 38, 40}) ||
    (s in {16, 17, 18, 19, 20, 23, 24} && p in {8, 26, 40}) ||
    (s in {21} && p in {8}) ||
    (s in {25} && p in {16}) ||
    (s in {26} && p in {17}) ||
    (s in {27} && p in {18}) ||
    (s in {28} && p in {21}) ||
    (s in {29} && p in {22}) ||
    (s in {30, 31, 32} && p in {25}) ||
    (s in {33, 34, 35} && p in {26}) ||
    (s in {36, 37} && p in {27}) ||
    (s in {38} && p in {31}) ||
    (s in {39} && p in {32}) ||
    (s in {40} && p in {34}) ||
    (s in {41} && p in {35}) ||
    (s in {42} && p in {37}) ||
    (s in {43} && p in {38}) ||
    (s in {44} && p in {40})
  }

  // The nonterminals that derive the empty string.
  predicate Nullable(symbol: int) {
    symbol in {24, 26, 28, 30, 32, 37, 39, 41}
  }

  // The terminals a phrase of a symbol can begin with.
  predicate First(symbol: int, t: int) {
    (symbol < YYNTOKENS && symbol == t) ||
    (symbol in {24, 25, 26, 27} && t in {10}) ||
    (symbol in {29} && t in {13}) ||
    (symbol in {31} && t in {15}) ||
    (symbol in {33, 36, 37} && t in {3, 4, 5, 6, 7, 8, 9, 13, 15, 18}) ||
    (symbol in {34} && t in {9}) ||
    (symbol in {35, 38, 39} && t in {3, 4, 5, 6, 7, 8, 9}) ||
    (symbol in {40} && t in {18})
  }

  // The terminals that can come right after a phrase of a nonterminal.
  predicate Follow(symbol: int, t: int) {
    (symbol in {24} && t in {0}) ||
    (symbol in {25, 27} && t in {0, 10, 19}) ||
    (symbol in {26} && t in {19}) ||
    (symbol in {28} && t in {11}) ||
    (symbol in {29, 31, 33, 40} && t in {16, 17, 20}) ||
    (symbol in {30} && t in {3, 4, 5, 6, 7, 8, 9, 14}) ||
    (symbol in {32} && t in {3, 4, 5, 6, 7, 8, 9, 13, 15, 16, 18}) ||
    (symbol in {34} && t in {9, 14, 16, 17, 20}) ||
    (symbol in {35} && t in {14, 16, 17, 20}) ||
    (symbol in {36} && t in {16, 17}) ||
    (symbol in {37} && t in {16}) ||
    (symbol in {38} && t in {14, 17}) ||
    (symbol in {39} && t in {14}) ||
    (symbol in {41} && t in {10, 19})
  }

  // The terminals that can come next when the dot of a rule stands at position d.
  predicate Next(rule: int, d: int, t: int)
    decreases YyR2(rule) - d
  {
    if d >= YyR2(rule) then Follow(YyR1(rule), t)
    else First(RhsAt(rule, d), t) || (Nullable(RhsAt(rule, d)) && Next(rule, d + 1, t))
  }

  // How many reductions can still follow on top of a state before the next shift; used to show
  // that the parser terminates.
  function Weight(state: int): (w: int)
    ensures 0 <= w <= 5
  {
    if state in {3, 7, 31, 34, 36, 39, 41, 42} then 1
    else if state in {0, 1, 4, 25, 26, 27, 30, 33} then 2
    else if state in {19, 20, 23, 24} then 3
    else if state in {9, 10, 11, 12, 13, 14, 16, 17, 18, 22, 29} then 4
    else if state in {15} then 5
    else 0
  }

  predicate IsState(s: int) {
    0 <= s < NSTATES && s != YYFINAL
  }

  // ---------- the tables encode it ----------

  lemma ShiftFact(s: int, t: int)
    requires IsState(s) && 0 <= t < YYNTOKENS && Action(s, t).Shift?
    ensures IsState(Action(s, t).state) && Link(s, Action(s, t).state)
    ensures YyStos(Action(s, t).state) == t && t != 0
  {
    hide YyStos;
    ShiftedSymbol(s, t);
  }

  lemma ShiftedSymbol(s: int, t: int)
    requires IsState(s) && 0 <= t < YYNTOKENS && Action(s, t).Shift?
    ensures YyStos(Action(s, t).state) == t && t != 0
  {
  }

  lemma ReduceFact(s: int, t: int)
    requires IsState(s) && 0 <= t < YYNTOKENS && Action(s, t).Reduce?
    ensures var n := Action(s, t).rule; 2 <= n <= 36 && LrItem(s, n, YyR2(n))
  {
  }

  lemma AcceptFact(s: int, t: int)
    requires IsState(s) && 0 <= t < YYNTOKENS && Action(s, t).Accept?
    ensures s == 2 && t == 0
  {
  }

  lemma BackFact(p: int, s: int, rule: int, d: int)
    requires Link(p, s) && LrItem(s, rule, d + 1) && 0 <= d
    ensures LrItem(p, rule, d) && d < YyR2(rule) && RhsAt(rule, d) == YyStos(s)
  {
    hide RhsAt;
    hide YyStos;
    hide YyR2;
    AccessingSymbol(s, rule, d);
  }

  lemma AccessingSymbol(s: int, rule: int, d: int)
    requires LrItem(s, rule, d + 1) && 0 <= d
    ensures d < YyR2(rule) && RhsAt(rule, d) == YyStos(s)
  {
  }

  lemma GotoFact(p: int, rule: int)
    requires 2 <= rule <= 36 && LrItem(p, rule, 0)
    ensures var q := Goto(p, YyR1(rule)); IsState(q) && Link(p, q) && YyStos(q) == YyR1(rule)
  {
    hide YyStos;
    GotoSymbol(p, rule);
  }

  lemma GotoSymbol(p: int, rule: int)
    requires 2 <= rule <= 36 && LrItem(p, rule, 0)
    ensures YyStos(Goto(p, YyR1(rule))) == YyR1(rule)
  {
  }

  lemma WeightFact(p: int, s: int, rule: int)
    requires 2 <= rule <= 36 && LrItem(p, rule, 0) && LrItem(s, rule, YyR2(rule))
    requires YyR2(rule) == 0 ==> p == s
    ensures Weight(Goto(p, YyR1(rule))) < Weight(s) + YyR2(rule) - 1
  {
  }

  lemma TerminalFact(s: int, rule: int, d: int)
    requires 2 <= rule <= 36 && 0 <= d < YyR2(rule) && LrItem(s, rule, d) && RhsAt(rule, d) < YYNTOKENS
    ensures Action(s, RhsAt(rule, d)).Shift?
    ensures LrItem(Action(s, RhsAt(rule, d)).state, rule, d + 1)
  {
    TerminalShifts(s, rule, d);
    if d == 0 { TerminalFirst(s, rule); }
  }

  lemma TerminalFirst(s: int, rule: int)
    requires 2 <= rule <= 36 && 0 < YyR2(rule) && LrItem(s, rule, 0) && RhsAt(rule, 0) < YYNTOKENS
    ensures Action(s, RhsAt(rule, 0)).Shift? ==> LrItem(Action(s, RhsAt(rule, 0)).state, rule, 1)
  {
  }

  lemma TerminalShifts(s: int, rule: int, d: int)
    requires 2 <= rule <= 36 && 0 <= d < YyR2(rule) && LrItem(s, rule, d) && RhsAt(rule, d) < YYNTOKENS
    ensures Action(s, RhsAt(rule, d)).Shift?
  {
  }

  lemma ClosureFact(s: int, rule: int, d: int, sub: int)
    requires 1 <= rule <= 36 && 0 <= d < YyR2(rule) && LrItem(s, rule, d)
    requires 2 <= sub <= 36 && YyR1(sub) == RhsAt(rule, d)
    ensures LrItem(s, sub, 0)
  {
  }

  lemma NonterminalFact(s: int, rule: int, d: int)
    requires 1 <= rule <= 36 && 0 <= d < YyR2(rule) && LrItem(s, rule, d) && RhsAt(rule, d) >= YYNTOKENS
    ensures LrItem(Goto(s, RhsAt(rule, d)), rule, d + 1)
  {
  }

  lemma CompleteItemFact(s: int, rule: int, t: int)
    requires 2 <= rule <= 36 && LrItem(s, rule, YyR2(rule)) && 0 <= t < YYNTOKENS && Follow(YyR1(rule), t)
    ensures Action(s, t) == Reduce(rule)
  {
    hide YyPact;
    hide YyCheck;
    hide YyTable;
    hide YyDefact;
    hide LrItem;
    hide Follow;
    CompleteDefault(s, rule);
    NoEntry(s, rule, t);
  }

  lemma NoEntry(s: int, rule: int, t: int)
    requires 2 <= rule <= 36 && LrItem(s, rule, YyR2(rule)) && 0 <= t < YYNTOKENS && Follow(YyR1(rule), t)
    ensures var n := YyPact(s) + t; YyPact(s) == YYPACT_NINF || n < 0 || YYLAST < n || YyCheck(n) != t
  {
  }

  lemma CompleteDefault(s: int, rule: int)
    requires 2 <= rule <= 36 && LrItem(s, rule, YyR2(rule))
    ensures YyDefact(s) == rule
  {
  }

  lemma FollowFact(rule: int, d: int, t: int)
    requires 1 <= rule <= 36 && 0 <= d < YyR2(rule) && RhsAt(rule, d) >= YYNTOKENS
    requires if rule == 1 then t == 0 else Next(rule, d + 1, t)
    ensures Follow(RhsAt(rule, d), t)
  {
  }

  lemma FirstFact(rule: int, t: int)
    requires 2 <= rule <= 36
    ensures YyR2(rule) == 0 ==> Nullable(YyR1(rule))
    ensures YyR2(rule) > 0 ==> !Nullable(RhsAt(rule, 0))
    ensures YyR2(rule) > 0 && First(RhsAt(rule, 0), t) ==> First(YyR1(rule), t)
  {
  }
}
