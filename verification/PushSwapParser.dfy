/** parser.c: which argument lists push_swap accepts. */
module Parser {
  import opened Basics
  import opened Costs

  const INT_MIN := -0x8000_0000
  const LONG_MAX := 0x7FFF_FFFF_FFFF_FFFF

  // ------------------------------------------------------- what a decimal string means

  predicate IsDigit(c: char) {
    '0' <= c <= '9'
  }

  predicate AllDigits(s: string) {
    forall i | 0 <= i < |s| :: IsDigit(s[i])
  }

  function Digit(c: char): (d: nat)
    requires IsDigit(c)
    ensures d <= 9
  {
    c as int - '0' as int
  }

  function Num(s: string): nat
    requires AllDigits(s)
  {
    if s == "" then 0 else 10 * Num(s[..|s| - 1]) + Digit(s[|s| - 1])
  }

  predicate Neg(s: string) {
    s != "" && s[0] == '-'
  }

  function Body(s: string): string {
    if s != "" && (s[0] == '-' || s[0] == '+') then s[1..] else s
  }

  /** An optional sign and one or more digits. */
  predicate IsNumeral(s: string) {
    Body(s) != "" && AllDigits(Body(s))
  }

  function Value(s: string): int
    requires IsNumeral(s)
  {
    var n: int := Num(Body(s));
    if Neg(s) then -n else n
  }

  /** A numeral in the range of int that is not a negative zero. */
  predicate Accepted(s: string) {
    && IsNumeral(s)
    && INT_MIN <= Value(s) <= INT_MAX
    && !(Neg(s) && Value(s) == 0)
  }

  ghost predicate AllAccepted(tokens: seq<string>) {
    forall i | 0 <= i < |tokens| :: Accepted(tokens[i])
  }

  ghost function Values(tokens: seq<string>): (r: seq<int>)
    requires AllAccepted(tokens)
    ensures |r| == |tokens| && forall i | 0 <= i < |r| :: r[i] == Value(tokens[i])
  {
    seq(|tokens|, i requires 0 <= i < |tokens| => Value(tokens[i]))
  }

  ghost predicate Acceptable(tokens: seq<string>) {
    AllAccepted(tokens) && NoDup(Values(tokens))
  }

  // ----------------------------------------------------------- leading zeros and equality

  function Strip(s: string): (r: string)
    ensures r == "" || r[0] != '0'
  {
    if s != "" && s[0] == '0' then Strip(s[1..]) else s
  }

  lemma {:induction false} LeadingZero(s: string)
    requires AllDigits(s)
    ensures AllDigits(['0'] + s) && Num(['0'] + s) == Num(s)
    decreases |s|
  {
    var z := ['0'] + s;
    if s != "" {
      LeadingZero(s[..|s| - 1]);
      assert z[..|z| - 1] == ['0'] + s[..|s| - 1];
    } else {
      assert z[..0] == "" && Num(z) == 10 * Num(z[..0]) + 0;
    }
  }

  /** Dropping leading zeros keeps digits digits and does not change the number. */
  lemma {:induction false} StripNum(s: string)
    ensures AllDigits(s) <==> AllDigits(Strip(s))
    ensures AllDigits(s) ==> Num(Strip(s)) == Num(s)
    decreases |s|
  {
    if s != "" && s[0] == '0' {
      StripNum(s[1..]);
      assert s == ['0'] + s[1..];
      if AllDigits(s[1..]) {
        LeadingZero(s[1..]);
      }
    }
  }

  lemma {:induction false} NumPositive(s: string)
    requires AllDigits(s) && s != "" && s[0] != '0'
    ensures Num(s) > 0
    decreases |s|
  {
    if |s| > 1 {
      NumPositive(s[..|s| - 1]);
    }
  }

  /** Without leading zeros a number is written in one way only. */
  lemma {:induction false} NumInjective(s: string, t: string)
    requires AllDigits(s) && (s == "" || s[0] != '0')
    requires AllDigits(t) && (t == "" || t[0] != '0')
    requires Num(s) == Num(t)
    ensures s == t
    decreases |s|
  {
    if s == "" || t == "" {
      if s != "" {
        NumPositive(s);
      }
      if t != "" {
        NumPositive(t);
      }
    } else {
      var s', t' := s[..|s| - 1], t[..|t| - 1];
      NumInjective(s', t');
      assert s == s' + [s[|s| - 1]] && t == t' + [t[|t| - 1]];
    }
  }

  /** What `ft_same` decides. */
  predicate Same(s: string, t: string) {
    Neg(s) == Neg(t) && Strip(Body(s)) == Strip(Body(t))
  }

  /** On accepted strings `ft_same` is equality of numbers. */
  lemma SameIffEqual(s: string, t: string)
    requires Accepted(s) && Accepted(t)
    ensures Same(s, t) <==> Value(s) == Value(t)
  {
    StripNum(Body(s));
    StripNum(Body(t));
    if Value(s) == Value(t) {
      NumInjective(Strip(Body(s)), Strip(Body(t)));
    }
  }

  const LOWEST := "-2147483648"

  /** The string that `ft_atoi_check` treats apart is INT_MIN, leading zeros or not. */
  lemma SameAsLowest(s: string)
    ensures Same(LOWEST, s) <==> IsNumeral(s) && Value(s) == INT_MIN
  {
    LowestNum();
    StripNum(Body(s));
    if IsNumeral(s) && Value(s) == INT_MIN {
      NumInjective("2147483648", Strip(Body(s)));
    }
  }

  lemma LowestNum()
    ensures AllDigits("2147483648") && Num("2147483648") == 0x8000_0000
    ensures Neg(LOWEST) && Strip(Body(LOWEST)) == "2147483648"
  {
    hide Num, AllDigits, Strip;
    NoDigits();
    NumOf("", '2', "2");
    NumOf("2", '1', "21");
    NumOf("21", '4', "214");
    NumOf("214", '7', "2147");
    NumOf("2147", '4', "21474");
    NumOf("21474", '8', "214748");
    NumOf("214748", '3', "2147483");
    NumOf("2147483", '6', "21474836");
    NumOf("21474836", '4', "214748364");
    NumOf("214748364", '8', "2147483648");
    Stripped("2147483648");
    assert LOWEST[1..] == "2147483648";
  }

  lemma NoDigits()
    ensures AllDigits("") && Num("") == 0
  {
  }

  lemma Stripped(s: string)
    requires s != "" && s[0] != '0'
    ensures Strip(s) == s
  {
  }

  lemma NumOf(s: string, c: char, t: string)
    requires AllDigits(s) && IsDigit(c) && t == s + [c]
    ensures AllDigits(t) && Num(t) == 10 * Num(s) + Digit(c)
  {
    NumSnoc(s, c);
  }

  lemma NumSnoc(s: string, c: char)
    requires AllDigits(s) && IsDigit(c)
    ensures AllDigits(s + [c]) && Num(s + [c]) == 10 * Num(s) + Digit(c)
  {
    assert (s + [c])[..|s|] == s;
  }

  lemma {:induction false} PrefixIsSmaller(s: string, k: nat)
    requires AllDigits(s) && k <= |s|
    ensures AllDigits(s[..k]) && Num(s[..k]) <= Num(s)
    decreases |s|
  {
    if k == |s| {
      assert s[..k] == s;
    } else {
      PrefixIsSmaller(s[..|s| - 1], k);
      assert s[..|s| - 1][..k] == s[..k];
    }
  }

  // ------------------------------------------------------------- how numbers are spelled

  /** The decimal spelling of a number, without leading zeros. */
  function Decimal(n: nat): string {
    if n < 10 then ["0123456789"[n]] else Decimal(n / 10) + ["0123456789"[n % 10]]
  }

  function Spelled(n: int): string {
    if n < 0 then ['-'] + Decimal(-n) else Decimal(n)
  }

  lemma DigitSpelled(d: nat)
    requires d < 10
    ensures IsDigit("0123456789"[d]) && Digit("0123456789"[d]) == d
  {
  }

  /** Reading undoes spelling. */
  lemma {:induction false} DecimalReads(n: nat)
    ensures AllDigits(Decimal(n)) && Num(Decimal(n)) == n && Decimal(n) != ""
  {
    if n < 10 {
      DigitSpelled(n);
      NoDigits();
      NumSnoc("", "0123456789"[n]);
      assert "" + ["0123456789"[n]] == ["0123456789"[n]];
    } else {
      DecimalReads(n / 10);
      DigitSpelled(n % 10);
      NumSnoc(Decimal(n / 10), "0123456789"[n % 10]);
    }
  }

  /** The spelling of an integer is accepted exactly if it fits an int, and as that integer. */
  lemma SpelledReads(n: int)
    ensures IsNumeral(Spelled(n)) && Value(Spelled(n)) == n
    ensures Accepted(Spelled(n)) <==> -2147483648 <= n <= 2147483647
  {
    var d := Decimal(if n < 0 then -n else n);
    DecimalReads(if n < 0 then -n else n);
    assert IsDigit(d[0]);
    assert Body(Spelled(n)) == d;
  }

  /** A plus sign and leading zeros change nothing. */
  lemma {:induction false} PaddedReads(n: nat, zeros: nat)
    ensures var s := ['+'] + Zeros(zeros) + Decimal(n);
            && IsNumeral(s) && Value(s) == n
            && (Accepted(s) <==> n <= 2147483647)
    decreases zeros
  {
    var z := Zeros(zeros) + Decimal(n);
    ZerosRead(n, zeros);
    assert ['+'] + Zeros(zeros) + Decimal(n) == ['+'] + z;
    assert Body(['+'] + z) == z;
  }

  function Zeros(k: nat): string {
    if k == 0 then "" else ['0'] + Zeros(k - 1)
  }

  lemma {:induction false} ZerosRead(n: nat, zeros: nat)
    ensures var z := Zeros(zeros) + Decimal(n); AllDigits(z) && Num(z) == n && z != ""
    decreases zeros
  {
    DecimalReads(n);
    if zeros == 0 {
      assert "" + Decimal(n) == Decimal(n);
    } else {
      ZerosRead(n, zeros - 1);
      LeadingZero(Zeros(zeros - 1) + Decimal(n));
      assert Zeros(zeros) + Decimal(n) == ['0'] + (Zeros(zeros - 1) + Decimal(n));
    }
  }

  /** The spellings of a list of numbers. */
  function AllSpelled(ns: seq<int>): (r: seq<string>)
    ensures |r| == |ns| && forall i | 0 <= i < |ns| :: r[i] == Spelled(ns[i])
  {
    seq(|ns|, i requires 0 <= i < |ns| => Spelled(ns[i]))
  }

  /** The spellings of a list of ints are acceptable exactly if no number comes twice, and they
      denote that list. */
  lemma ListReads(ns: seq<int>)
    requires forall i | 0 <= i < |ns| :: -2147483648 <= ns[i] <= 2147483647
    ensures AllAccepted(AllSpelled(ns)) && Values(AllSpelled(ns)) == ns
    ensures Acceptable(AllSpelled(ns)) <==> NoDup(ns)
  {
    forall i | 0 <= i < |ns| ensures Accepted(AllSpelled(ns)[i]) && Value(AllSpelled(ns)[i]) == ns[i] {
      SpelledReads(ns[i]);
    }
  }

  // ------------------------------------------------------------------- the functions

  /** `trim_zero`. */
  method TrimZero(s: string) returns (r: string)
    ensures r == Strip(Body(s))
  {
    r := s;
    if r != "" && (r[0] == '+' || r[0] == '-') {
      r := r[1..];
    }
    while r != "" && r[0] == '0'
      invariant Strip(r) == Strip(Body(s))
      decreases |r|
    {
      r := r[1..];
    }
  }

  /** `ft_same`. */
  method FtSame(s1: string, s2: string) returns (same: bool)
    ensures same <==> Same(s1, s2)
  {
    var t1 := TrimZero(s1);
    var t2 := TrimZero(s2);
    if Neg(s1) != Neg(s2) {
      return false;
    }
    ghost var u1, u2 := t1, t2;
    while t1 != "" && t2 != ""
      invariant |t1| <= |u1| && |t2| <= |u2|
      invariant u1 == u2 <==> t1 == t2
      decreases |t1|
    {
      if t1[0] != t2[0] {
        return false;
      }
      assert t1 == [t1[0]] + t1[1..] && t2 == [t2[0]] + t2[1..];
      t1 := t1[1..];
      t2 := t2[1..];
    }
    return t1 == "" && t2 == "";
  }

  /** `ft_atoi_check`: the number, or an error.  An error that is already set stays. */
  method FtAtoiCheck(str: string, error0: bool) returns (n: int, error: bool)
    ensures error <==> error0 || !Accepted(str)
    ensures !error ==> n == Value(str)
  {
    hide Num, Strip, Same;
    error := error0;
    if str == "" || (str[0] == '+' && |str| == 1) {
      return 0, true;
    }
    var lowest := FtSame(LOWEST, str);
    SameAsLowest(str);
    if lowest {
      return INT_MIN, error;
    }
    var minus := if str[0] == '-' then -1 else 1;
    var body := if str[0] == '-' || str[0] == '+' then str[1..] else str;
    var i, res := 0, 0;
    NoDigits();
    while i < |body| && IsDigit(body[i]) && !error
      invariant 0 <= i <= |body| && error == error0
      invariant AllDigits(body[..i]) && res == Num(body[..i])
      invariant 0 <= res <= INT_MAX
    {
      var next := res * 10 + Digit(body[i]);
      assert next <= LONG_MAX;
      NumSnoc(body[..i], body[i]);
      assert body[..i] + [body[i]] == body[..i + 1];
      if (minus == -1 && -next < INT_MIN) || next > INT_MAX {
        TooLarge(str, i + 1);
        return 0, true;
      }
      res := next;
      i := i + 1;
    }
    assert body[..|body|] == body;
    if i != |body| || (res == 0 && minus == -1) {
      error := true;
    }
    return res * minus, error;
  }

  /** A numeral with a prefix above INT_MAX is out of range, except for INT_MIN itself. */
  lemma TooLarge(str: string, k: nat)
    requires k <= |Body(str)| && AllDigits(Body(str)[..k]) && Num(Body(str)[..k]) > INT_MAX
    requires !(IsNumeral(str) && Value(str) == INT_MIN)
    ensures !Accepted(str)
  {
    if IsNumeral(str) {
      PrefixIsSmaller(Body(str), k);
    }
  }

  /** `error_free` on the tokens, or on the NULL that a failed split leaves. */
  method ErrorFree(memory: Option<seq<string>>) returns (ok: bool)
    ensures ok <==> memory.Some? && Acceptable(memory.value)
  {
    if memory.None? {
      return false;
    }
    var tokens := memory.value;
    var i, error := 0, false;
    while i < |tokens| && !error
      invariant 0 <= i <= |tokens|
      invariant if error then !Acceptable(tokens) else Acceptable(tokens[..i])
    {
      var n;
      n, error := FtAtoiCheck(tokens[i], error);
      var j := 0;
      while j < i && !error
        invariant 0 <= j <= i && (error ==> !Acceptable(tokens))
        invariant !error ==> Accepted(tokens[i])
        invariant !error ==> forall k | 0 <= k < j :: Value(tokens[k]) != Value(tokens[i])
      {
        var same := FtSame(tokens[i], tokens[j]);
        assert Accepted(tokens[..i][j]);
        SameIffEqual(tokens[i], tokens[j]);
        if same {
          error := true;
          Repeated(tokens, j, i);
        }
        j := j + 1;
      }
      if !error {
        OneMore(tokens, i);
      }
      i := i + 1;
    }
    assert tokens[..|tokens|] == tokens;
    return !error;
  }

  lemma Repeated(tokens: seq<string>, j: nat, i: nat)
    requires j < i < |tokens| && Accepted(tokens[j]) && Accepted(tokens[i]) && Value(tokens[j]) == Value(tokens[i])
    ensures !Acceptable(tokens)
  {
    if AllAccepted(tokens) {
      assert Values(tokens)[j] == Values(tokens)[i];
    }
  }

  lemma OneMore(tokens: seq<string>, i: nat)
    requires i < |tokens| && Acceptable(tokens[..i]) && Accepted(tokens[i])
    requires forall k | 0 <= k < i :: Accepted(tokens[k]) && Value(tokens[k]) != Value(tokens[i])
    ensures Acceptable(tokens[..i + 1])
  {
    var p, q := tokens[..i], tokens[..i + 1];
    assert forall k | 0 <= k < i :: Values(p)[k] == Value(tokens[k]);
  }
}
