/** Decimal numbers as the C library prints and reads them. */
module Text {
  import opened Machine

  predicate IsDigit(c: char) { '0' <= c <= '9' }

  predicate AllDigits(s: string) { forall i | 0 <= i < |s| :: IsDigit(s[i]) }

  function DigitOf(n: nat): char
    requires n < 10
  {
    ('0' as int + n) as char
  }

  function Value(s: string): nat
    requires AllDigits(s)
  {
    if s == "" then 0 else Value(s[..|s| - 1]) * 10 + (s[|s| - 1] as int - '0' as int)
  }

  function Digits(n: nat): string {
    if n < 10 then [DigitOf(n)] else Digits(n / 10) + [DigitOf(n % 10)]
  }

  function Sign(neg: bool): string { if neg then "-" else "" }

  /** What `%d` prints. */
  function Print(v: int): string { Sign(v < 0) + Digits(Abs(v)) }

  function Spaces(n: nat): (s: string)
    ensures |s| == n && forall i | 0 <= i < n :: s[i] == ' '
  {
    if n == 0 then "" else " " + Spaces(n - 1)
  }

  lemma {:induction false} DigitsValue(n: nat)
    ensures Digits(n) != "" && AllDigits(Digits(n)) && Value(Digits(n)) == n
  {
    if n >= 10 {
      DigitsValue(n / 10);
      assert Digits(n)[..|Digits(n)| - 1] == Digits(n / 10);
    } else {
      assert Digits(n)[..0] == "";
    }
  }

  predicate OccursAt(s: string, t: string, i: nat) { i + |t| <= |s| && s[i..i + |t|] == t }

  /** `strstr` finds something. */
  predicate Contains(s: string, t: string) { exists i: nat | i <= |s| :: OccursAt(s, t, i) }

  // ---------- Reading ----------

  /** A number, how many characters were read, and whether it fits a `long`. */
  datatype Parsed = Parsed(value: int, used: nat, fits: bool)

  predicate IsSpace(c: char) { c == ' ' || 9 <= c as int <= 13 }

  function SpaceEnd(s: string, i: nat): (e: nat)
    requires i <= |s|
    ensures i <= e <= |s| && forall j | i <= j < e :: IsSpace(s[j])
    ensures e < |s| ==> !IsSpace(s[e])
    decreases |s| - i
  {
    if i < |s| && IsSpace(s[i]) then SpaceEnd(s, i + 1) else i
  }

  function DigitEnd(s: string, i: nat): (e: nat)
    requires i <= |s|
    ensures i <= e <= |s| && forall j | i <= j < e :: IsDigit(s[j])
    ensures e < |s| ==> !IsDigit(s[e])
    decreases |s| - i
  {
    if i < |s| && IsDigit(s[i]) then DigitEnd(s, i + 1) else i
  }

  function Signed(neg: bool, n: int): int { if neg then -n else n }

  /** A value that does not fit is cut to the nearest one that does. */
  function Clipped(v: int, used: nat): Parsed {
    if v < -TWO63 then Parsed(-TWO63, used, false)
    else if v >= TWO63 then Parsed(TWO63 - 1, used, false)
    else Parsed(v, used, true)
  }

  /** `strtol` in base ten; `%d` reads the same characters. */
  function Strtol(s: string): Parsed {
    var a := SpaceEnd(s, 0);
    var b := if a < |s| && (s[a] == '-' || s[a] == '+') then a + 1 else a;
    var c := DigitEnd(s, b);
    if b == c then Parsed(0, 0, true)
    else Clipped(Signed(a < |s| && s[a] == '-', Value(s[b..c])), c)
  }

  /** What `strtol` reads: any white space, maybe a sign, and all digits that follow; without a digit
      it reads nothing. */
  lemma StrtolMeaning(s: string) returns (start: nat, digits: nat, end: nat)
    ensures start <= digits <= end <= |s| && digits <= start + 1
    ensures forall i | 0 <= i < start :: s[i] in " \t\n\U{B}\U{C}\r"
    ensures start < |s| ==> s[start] !in " \t\n\U{B}\U{C}\r"
    ensures digits == start + 1 <==> start < |s| && s[start] in "+-"
    ensures (forall i | digits <= i < end :: '0' <= s[i] <= '9') && (end < |s| ==> !('0' <= s[end] <= '9'))
    ensures Strtol(s).used == (if digits < end then end else 0)
    ensures digits < end ==>
              var n: int := Value(s[digits..end]); Strtol(s) == Clipped(if s[start] == '-' then -n else n, end)
    ensures digits == end ==> Strtol(s).value == 0 && Strtol(s).fits
  {
    start := SpaceEnd(s, 0);
    digits := if start < |s| && (s[start] == '-' || s[start] == '+') then start + 1 else start;
    end := DigitEnd(s, digits);
  }

  /** Digits are read in base ten. */
  lemma ValueIsDecimal(s: string, c: char)
    requires AllDigits(s) && IsDigit(c)
    ensures Value("") == 0 && Value(s + [c]) == 10 * Value(s) + (c as int - '0' as int)
  {
    assert (s + [c])[..|s|] == s;
  }

  /** A number is what the text starts with: spaces, maybe a minus sign, then digits. */
  ghost predicate Starts(s: string, n: nat, neg: bool, ds: string) {
    && ds != "" && AllDigits(ds)
    && n + (if neg then 1 else 0) + |ds| <= |s|
    && (forall i | 0 <= i < n :: s[i] == ' ')
    && (neg ==> s[n] == '-')
    && (var b := n + if neg then 1 else 0; s[b..b + |ds|] == ds && (b + |ds| < |s| ==> !IsDigit(s[b + |ds|])))
  }

  lemma SpaceEndIs(s: string, n: nat)
    requires n <= |s| && (forall i | 0 <= i < n :: IsSpace(s[i])) && (n < |s| ==> !IsSpace(s[n]))
    ensures SpaceEnd(s, 0) == n
  {
  }

  lemma DigitEndIs(s: string, b: nat, c: nat)
    requires b <= c <= |s| && (forall i | b <= i < c :: IsDigit(s[i])) && (c < |s| ==> !IsDigit(s[c]))
    ensures DigitEnd(s, b) == c
  {
  }

  lemma {:induction false} StartEnds(s: string, n: nat, neg: bool, ds: string)
    requires Starts(s, n, neg, ds)
    ensures var b := n + if neg then 1 else 0;
            && SpaceEnd(s, 0) == n && DigitEnd(s, b) == b + |ds| && s[b..b + |ds|] == ds
            && (s[n] == '-' <==> neg) && s[n] != '+'
  {
    var b := n + if neg then 1 else 0;
    forall i | b <= i < b + |ds| ensures IsDigit(s[i]) {
      assert s[i] == s[b..b + |ds|][i - b] == ds[i - b];
    }
    SpaceEndIs(s, n);
    DigitEndIs(s, b, b + |ds|);
  }

  /** Reading a number stops right behind it and gives its value. */
  lemma {:induction false} StrtolReads(s: string, n: nat, neg: bool, ds: string)
    requires Starts(s, n, neg, ds)
    ensures Strtol(s) == Clipped(Signed(neg, Value(ds)), n + (if neg then 1 else 0) + |ds|)
  {
    StartEnds(s, n, neg, ds);
  }

  lemma {:induction false} StartsConcat(g: nat, neg: bool, ds: string, tail: string)
    requires ds != "" && AllDigits(ds) && (tail == "" || !IsDigit(tail[0]))
    ensures Starts(Spaces(g) + (Sign(neg) + ds) + tail, g, neg, ds)
  {
    var number := Sign(neg) + ds;
    var s := Spaces(g) + number + tail;
    var b := g + |Sign(neg)|;
    assert s[b..b + |ds|] == ds;
    assert forall i | 0 <= i < g :: s[i] == Spaces(g)[i];
    assert s[g] == number[0];
    assert tail != "" ==> s[b + |ds|] == tail[0];
  }

  lemma {:induction false} ReadsBack(s: string, g: nat, v: i64)
    requires Starts(s, g, v < 0, Digits(Abs(v)))
    ensures Strtol(s) == Parsed(v, g + |Print(v)|, true)
  {
    DigitsValue(Abs(v));
    StrtolReads(s, g, v < 0, Digits(Abs(v)));
  }

  /** Printing and reading back, behind any number of spaces. */
  lemma {:induction false} PrintReadsBack(g: nat, v: i64, tail: string)
    requires tail == "" || !IsDigit(tail[0])
    ensures Strtol(Spaces(g) + Print(v) + tail) == Parsed(v, g + |Print(v)|, true)
  {
    DigitsValue(Abs(v));
    StartsConcat(g, v < 0, Digits(Abs(v)), tail);
    ReadsBack(Spaces(g) + Print(v) + tail, g, v);
  }
}
