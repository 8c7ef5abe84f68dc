/** Regular expressions, as the scanner's rules are written in. */
module ConfigRegex {
  import opened ConfigScanner

  // Matches says which texts one stands for; the laws below take it apart and together again, for
  // a text or for a part of one.

  datatype Regex =
    | Range(lo: char, hi: char)
    | NoneOf(cs: string)
    | Nothing
    | Then(a: Regex, b: Regex)
    | Or(a: Regex, b: Regex)
    | Many(a: Regex)

  ghost predicate Matches(r: Regex, s: string)
    decreases r, |s|
  {
    match r
    case Range(lo, hi) => |s| == 1 && lo <= s[0] <= hi
    case NoneOf(cs) => |s| == 1 && s[0] !in cs
    case Nothing => s == []
    case Then(a, b) => exists i :: 0 <= i <= |s| && Matches(a, s[..i]) && Matches(b, s[i..])
    case Or(a, b) => Matches(a, s) || Matches(b, s)
    case Many(a) => s == [] || exists i :: 0 < i <= |s| && Matches(a, s[..i]) && Matches(Many(a), s[i..])
  }

  function One(c: char): Regex {
    Range(c, c)
  }

  function Either(c: char, d: char): Regex {
    Or(One(c), One(d))
  }

  function Maybe(a: Regex): Regex {
    Or(a, Nothing)
  }

  // a+
  function Plus(a: Regex): Regex {
    Then(a, Many(a))
  }

  lemma {:induction false} Joined(a: Regex, b: Regex, x: string, y: string)
    requires Matches(a, x) && Matches(b, y)
    ensures Matches(Then(a, b), x + y)
  {
    var s := x + y;
    assert s[..|x|] == x && s[|x|..] == y;
  }

  // One character.
  predicate Single(r: Regex) {
    r.Range? || r.NoneOf? || (r.Or? && Single(r.a) && Single(r.b))
  }

  lemma {:induction false} SingleIs(r: Regex, s: string)
    requires Single(r) && Matches(r, s)
    ensures |s| == 1
  {
    if r.Or? {
      if Matches(r.a, s) { SingleIs(r.a, s); } else { SingleIs(r.b, s); }
    }
  }

  lemma {:induction false} ManySingles(a: Regex, s: string)
    requires Single(a)
    ensures Matches(Many(a), s) <==> forall i :: 0 <= i < |s| ==> Matches(a, [s[i]])
    decreases |s|
  {
    if s != [] {
      assert s[..1] == [s[0]];
      ManySingles(a, s[1..]);
      assert forall i :: 1 <= i < |s| ==> s[i] == s[1..][i - 1];
      if Matches(Many(a), s) {
        var i :| 0 < i <= |s| && Matches(a, s[..i]) && Matches(Many(a), s[i..]);
        SingleIs(a, s[..i]);
      }
      if forall i :: 0 <= i < |s| ==> Matches(a, [s[i]]) {
        forall i | 0 <= i < |s[1..]|
          ensures Matches(a, [s[1..][i]])
        {
          assert s[1..][i] == s[i + 1];
        }
        assert Matches(a, s[..1]) && Matches(Many(a), s[1..]);
      }
    }
  }

  // A regular expression for one character of a class.
  ghost predicate ClassOf(a: Regex, k: Class) {
    Single(a) && forall c :: Matches(a, [c]) <==> In(k, c)
  }

  lemma {:induction false} OrIs(a: Regex, b: Regex, s: string)
    ensures Matches(Or(a, b), s) <==> Matches(a, s) || Matches(b, s)
  {
  }

  lemma {:induction false} RangeIs(lo: char, hi: char, s: string)
    ensures Matches(Range(lo, hi), s) <==> |s| == 1 && lo <= s[0] <= hi
  {
  }

  lemma {:induction false} EitherIs(c: char, d: char, s: string)
    ensures Matches(Either(c, d), s) <==> |s| == 1 && (s[0] == c || s[0] == d)
  {
    hide Matches;
    OrIs(One(c), One(d), s);
    RangeIs(c, c, s);
    RangeIs(d, d, s);
  }

  lemma {:induction false} MaybeIs(a: Regex, s: string)
    ensures Matches(Maybe(a), s) <==> Matches(a, s) || s == []
  {
  }

  lemma {:induction false} ManyIn(a: Regex, k: Class, s: string)
    requires ClassOf(a, k)
    ensures Matches(Many(a), s) <==> forall i :: 0 <= i < |s| ==> In(k, s[i])
  {
    hide In;
    ManySingles(a, s);
  }

  lemma {:induction false} SomeIn(a: Regex, k: Class, s: string)
    requires ClassOf(a, k)
    ensures Matches(Plus(a), s) <==> s != [] && forall i :: 0 <= i < |s| ==> In(k, s[i])
  {
    hide In;
    if Matches(Plus(a), s) {
      var i :| 0 <= i <= |s| && Matches(a, s[..i]) && Matches(Many(a), s[i..]);
      SingleIs(a, s[..i]);
      assert s[..1] == [s[0]];
      ManyIn(a, k, s[1..]);
      assert forall i :: 1 <= i < |s| ==> s[i] == s[1..][i - 1];
    }
    if s != [] && forall i :: 0 <= i < |s| ==> In(k, s[i]) {
      ManyIn(a, k, s[1..]);
      assert s[..1] == [s[0]] && s == s[..1] + s[1..];
      Joined(a, Many(a), s[..1], s[1..]);
    }
  }

  // The longest front of a text in a class.
  lemma {:induction false} FrontIn(k: Class, t: string, m: nat)
    requires m <= |t|
    ensures (forall i :: 0 <= i < m ==> In(k, t[..m][i])) <==> m <= Span(k, t)
  {
    hide In;
    if m > Span(k, t) { assert t[..m][Span(k, t)] == t[Span(k, t)]; }
  }

  ghost predicate All(k: Class, s: string) {
    forall i :: 0 <= i < |s| ==> In(k, s[i])
  }

  lemma {:induction false} Split(a: Regex, b: Regex, s: string) returns (i: nat)
    requires Matches(Then(a, b), s)
    ensures i <= |s| && Matches(a, s[..i]) && Matches(b, s[i..])
  {
    i :| 0 <= i <= |s| && Matches(a, s[..i]) && Matches(b, s[i..]);
  }

  // No front of the text is matched by more than n of its characters, and if any is, n are.
  ghost predicate Best(a: Regex, t: string, n: nat) {
    && n <= |t| && (n > 0 ==> Matches(a, t[..n]))
    && forall m :: 0 < m <= |t| && Matches(a, t[..m]) ==> m <= n
  }

  lemma {:induction false} SpanAfter(k: Class, t: string, i: nat, m: nat)
    requires i <= m <= |t|
    ensures All(k, t[..m][i..]) <==> m <= i + Span(k, t[i..])
  {
    hide In;
    assert t[..m][i..] == t[i..][..m - i];
    FrontIn(k, t[i..], m - i);
  }

  // The fronts of a text that match are those longer than lo and no longer than hi.
  ghost predicate Fronts(a: Regex, t: string, lo: nat, hi: nat) {
    hi <= |t| && forall m :: 0 <= m <= |t| ==> (Matches(a, t[..m]) <==> lo < m <= hi)
  }

  lemma {:induction false} FrontsBest(a: Regex, t: string, lo: nat, hi: nat)
    requires Fronts(a, t, lo, hi)
    ensures Best(a, t, if hi > lo then hi else 0)
  {
    hide Matches;
  }

  ghost predicate AllIn(k: Class, t: string, lo: nat, hi: nat)
    requires lo <= hi <= |t|
  {
    forall i :: lo <= i < hi ==> In(k, t[i])
  }

  lemma {:induction false} SplitIn(a: Regex, b: Regex, t: string, lo: nat, hi: nat) returns (i: nat)
    requires lo <= hi <= |t| && Matches(Then(a, b), t[lo..hi])
    ensures lo <= i <= hi && Matches(a, t[lo..i]) && Matches(b, t[i..hi])
  {
    hide Matches;
    var j := Split(a, b, t[lo..hi]);
    i := lo + j;
    assert t[lo..hi][..j] == t[lo..i] && t[lo..hi][j..] == t[i..hi];
  }

  lemma {:induction false} JoinIn(a: Regex, b: Regex, t: string, lo: nat, i: nat, hi: nat)
    requires lo <= i <= hi <= |t| && Matches(a, t[lo..i]) && Matches(b, t[i..hi])
    ensures Matches(Then(a, b), t[lo..hi])
  {
    hide Matches;
    Joined(a, b, t[lo..i], t[i..hi]);
    assert t[lo..i] + t[i..hi] == t[lo..hi];
  }

  lemma {:induction false} OneAt(c: char, t: string, lo: nat, hi: nat)
    requires lo <= hi <= |t|
    ensures Matches(One(c), t[lo..hi]) <==> hi == lo + 1 && t[lo] == c
  {
    hide Matches;
    RangeIs(c, c, t[lo..hi]);
  }

  lemma {:induction false} EitherAt(c: char, d: char, t: string, lo: nat, hi: nat)
    requires lo <= hi <= |t|
    ensures Matches(Either(c, d), t[lo..hi]) <==> hi == lo + 1 && (t[lo] == c || t[lo] == d)
  {
    hide Matches;
    EitherIs(c, d, t[lo..hi]);
  }

  lemma {:induction false} PartIn(k: Class, t: string, lo: nat, hi: nat)
    requires lo <= hi <= |t|
    ensures All(k, t[lo..hi]) <==> AllIn(k, t, lo, hi)
  {
    hide In;
    if All(k, t[lo..hi]) {
      forall i | lo <= i < hi
        ensures In(k, t[i])
      {
        assert t[lo..hi][i - lo] == t[i];
      }
    }
  }

  lemma {:induction false} SpanAt(k: Class, t: string, lo: nat, hi: nat)
    requires lo <= hi <= |t|
    ensures AllIn(k, t, lo, hi) <==> hi <= lo + Span(k, t[lo..])
    ensures AllIn(k, t, lo, hi) && hi < |t| && !In(k, t[hi]) ==> hi == lo + Span(k, t[lo..])
  {
    hide In;
    var n := Span(k, t[lo..]);
    assert forall i :: 0 <= i < |t| - lo ==> t[lo..][i] == t[lo + i];
    if hi > lo + n { assert t[lo..][n] == t[lo + n]; }
    if hi <= lo + n {
      forall i | lo <= i < hi
        ensures In(k, t[i])
      {
        assert t[lo..][i - lo] == t[i];
      }
    }
    if hi < |t| && hi < lo + n { assert t[lo..][hi - lo] == t[hi]; }
  }

  lemma {:induction false} NoneAt(c: char, t: string, lo: nat, hi: nat)
    requires lo <= hi <= |t|
    ensures Matches(NoneOf([c]), t[lo..hi]) <==> hi == lo + 1 && t[lo] != c
  {
  }

  lemma {:induction false} BestSingle(a: Regex, t: string)
    requires Single(a) && t != []
    ensures Best(a, t, if Matches(a, t[0..1]) then 1 else 0)
  {
    forall m | 0 < m <= |t| && Matches(a, t[..m])
      ensures m == 1 && Matches(a, t[0..1])
    {
      SingleIs(a, t[..m]);
      assert t[..1] == t[0..1];
    }
    assert t[..1] == t[0..1];
  }

  lemma {:induction false} BestOne(c: char, t: string)
    requires t != []
    ensures Best(One(c), t, if t[0] == c then 1 else 0)
  {
    hide Matches;
    hide Best;
    OneAt(c, t, 0, 1);
    BestSingle(One(c), t);
  }
}
