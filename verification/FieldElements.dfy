/** Field elements as text: decimal, 0x-prefixed hex or bare hex. */
module FieldElements {
  import opened Field
  import opened Bytes

  /** What String.prototype.trim removes. */
  predicate IsSpace(c: char) {
    var u := c as int;
    9 <= u <= 13 || u in {0x20, 0xA0, 0x1680, 0x2028, 0x2029, 0x202F, 0x205F, 0x3000, 0xFEFF} || 0x2000 <= u <= 0x200A
  }

  ghost predicate Blank(s: string) {
    forall i :: 0 <= i < |s| ==> IsSpace(s[i])
  }

  function TrimLeft(s: string): string {
    if s != [] && IsSpace(s[0]) then TrimLeft(s[1..]) else s
  }

  function TrimRight(s: string): string {
    if s != [] && IsSpace(s[|s| - 1]) then TrimRight(s[..|s| - 1]) else s
  }

  function Trim(s: string): string {
    TrimRight(TrimLeft(s))
  }

  predicate IsDigit(c: char) {
    '0' <= c <= '9'
  }

  predicate AllDigits(s: string) {
    forall i :: 0 <= i < |s| ==> IsDigit(s[i])
  }

  function DecimalValue(s: string): nat
    requires AllDigits(s)
  {
    if s == [] then 0 else 10 * DecimalValue(s[..|s| - 1]) + (s[|s| - 1] - '0') as nat
  }

  predicate Prefixed(s: string) {
    |s| >= 2 && s[0] == '0' && s[1] == 'x'
  }

  function HexLiteral(s: string): Option<nat> {
    if s != [] && AllHex(s) then Some(HexValue(s)) else None
  }

  /** None where BigInt throws. */
  function ParseFieldElement(value: string): Option<nat> {
    var s := Trim(value);
    if Prefixed(s) then HexLiteral(s[2..])
    else if s != [] && AllDigits(s) then Some(DecimalValue(s))
    else HexLiteral(s)
  }

  /** The store's form of an element: BigInt.toString. */
  function Canonical(n: nat): (s: string)
    ensures s != [] && AllDigits(s)
  {
    if n < 10 then ['0' + n as char] else Canonical(n / 10) + ['0' + (n % 10) as char]
  }

  // ---- trimming ----

  lemma {:induction false} TrimLeftBlank(a: string, s: string)
    requires Blank(a) && (s == [] || !IsSpace(s[0]))
    ensures TrimLeft(a + s) == s
  {
    if a == [] {
      assert a + s == s;
    } else {
      TrimLeftBlank(a[1..], s);
      assert (a + s)[1..] == a[1..] + s;
    }
  }

  lemma {:induction false} TrimRightBlank(s: string, b: string)
    requires Blank(b) && (s == [] || !IsSpace(s[|s| - 1]))
    ensures TrimRight(s + b) == s
    decreases |b|
  {
    if b == [] {
      assert s + b == s;
    } else {
      TrimRightBlank(s, b[..|b| - 1]);
      assert (s + b)[..|s + b| - 1] == s + b[..|b| - 1];
    }
  }

  lemma TrimAround(a: string, s: string, b: string)
    requires Blank(a) && Blank(b) && s != [] && !IsSpace(s[0]) && !IsSpace(s[|s| - 1])
    ensures Trim(a + s + b) == s
  {
    assert a + s + b == a + (s + b);
    TrimLeftBlank(a, s + b);
    TrimRightBlank(s, b);
  }

  // ---- round trips ----

  lemma {:induction false} CanonicalValue(n: nat)
    ensures DecimalValue(Canonical(n)) == n
    decreases n
  {
    if n < 10 {
      assert Canonical(n)[..0] == [];
    } else {
      CanonicalValue(n / 10);
      assert Canonical(n)[..|Canonical(n)| - 1] == Canonical(n / 10);
    }
  }

  /** Blanks include the space, the tab and the line breaks, and nothing a number is written with. */
  lemma SpacesAre(c: char)
    ensures c in {' ', '\t', '\n', '\r'} ==> IsSpace(c)
    ensures IsHex(c) || c in {'x', 'X', '-', '+'} ==> !IsSpace(c)
  {}

  /** Any decimal text, with blanks around it, is read as the number it writes. */
  lemma DecimalRead(a: string, s: string, b: string)
    requires Blank(a) && Blank(b) && s != [] && AllDigits(s)
    ensures ParseFieldElement(a + s + b) == Some(DecimalValue(s))
  {
    TrimAround(a, s, b);
  }

  /** So is any 0x-prefixed hex text, in either case. */
  lemma PrefixedRead(a: string, s: string, b: string)
    requires Blank(a) && Blank(b) && s != [] && AllHex(s)
    ensures ParseFieldElement(a + ("0x" + s) + b) == Some(HexValue(s))
  {
    TrimAround(a, "0x" + s, b);
    assert ("0x" + s)[2..] == s;
  }

  /** No leading zeros. */
  lemma {:induction false} CanonicalLead(n: nat)
    ensures |Canonical(n)| > 1 ==> Canonical(n)[0] != '0'
    ensures Canonical(n) == "0" <==> n == 0
    decreases n
  {
    if n >= 10 {
      CanonicalLead(n / 10);
      assert Canonical(n)[0] == Canonical(n / 10)[0];
    }
  }

  /** The canonical form parses back, so equal elements and equal store keys are the same thing. */
  lemma CanonicalRoundTrip(n: nat, m: nat)
    ensures ParseFieldElement(Canonical(n)) == Some(n)
    ensures Canonical(n) == Canonical(m) <==> n == m
  {
    CanonicalValue(n);
    CanonicalValue(m);
    DecimalRead([], Canonical(n), []);
    assert [] + Canonical(n) + [] == Canonical(n);
  }

  // ---- bare hex ----

  predicate HasLetter(s: string) {
    exists i :: 0 <= i < |s| && !IsDigit(s[i])
  }

  /** Only the last digit can be other than 0. */
  ghost predicate OneDigit(s: string) {
    forall i :: 0 <= i < |s| - 1 ==> s[i] == '0'
  }

  lemma {:induction false} DecimalBelowHex(s: string)
    requires AllDigits(s)
    ensures AllHex(s) && DecimalValue(s) <= HexValue(s)
    ensures DecimalValue(s) == 0 <==> forall i :: 0 <= i < |s| ==> s[i] == '0'
    ensures DecimalValue(s) == HexValue(s) <==> OneDigit(s)
  {
    if s != [] {
      DecimalBelowHex(s[..|s| - 1]);
      assert forall i :: 0 <= i < |s| - 1 ==> s[i] == s[..|s| - 1][i];
    }
  }

  /**
   * Bare hex is read as hex exactly when it has a letter, or at most one
   * digit that counts; any other run of digits is taken for decimal.
   */
  lemma BareHexRead(s: string)
    requires s != [] && AllHex(s)
    ensures ParseFieldElement(s) == Some(HexValue(s)) <==> HasLetter(s) || OneDigit(s)
  {
    TrimAround([], s, []);
    assert [] + s + [] == s;
    if AllDigits(s) { DecimalBelowHex(s); }
  }

  // ---- signs ----

  /** A negative number, which the verifier reduces into the field, is no element here: BigInt throws. */
  lemma NegativeNotRead(a: string, s: string, b: string)
    requires Blank(a) && Blank(b) && s != [] && AllDigits(s)
    ensures ParseFieldElement(a + ("-" + s) + b).None?
  {
    TrimAround(a, "-" + s, b);
    assert ("-" + s)[0] == '-';
  }

  // ---- the format of a request ----

  predicate Between(s: string, low: nat, high: nat) {
    low <= |s| <= high
  }

  function WithoutMark(s: string): string {
    if Prefixed(s) then s[2..] else s
  }

  function WithoutMinus(s: string): string {
    if s != [] && s[0] == '-' then s[1..] else s
  }

  /** Up to 64 hex digits after an optional 0x, or up to 78 decimal digits after an optional minus. */
  predicate Admitted(s: string) {
    || (Between(WithoutMark(s), 1, 64) && AllHex(WithoutMark(s)))
    || (Between(WithoutMinus(s), 1, 78) && AllDigits(WithoutMinus(s)))
  }

  ghost predicate Digits(t: string) {
    1 <= |t| <= 78 && AllDigits(t)
  }

  ghost predicate HexDigits(t: string) {
    1 <= |t| <= 64 && AllHex(t)
  }

  /** The admitted texts are those four forms and no others. */
  lemma AdmittedForms(s: string)
    ensures Admitted(s) <==>
              (exists t :: Digits(t) && (s == t || s == "-" + t)) || (exists t :: HexDigits(t) && (s == t || s == "0x" + t))
  {
    if Admitted(s) {
      assert HexDigits(WithoutMark(s)) || Digits(WithoutMinus(s));
      assert s == WithoutMark(s) || s == "0x" + WithoutMark(s);
      assert s == WithoutMinus(s) || s == "-" + WithoutMinus(s);
    }
    if t :| HexDigits(t) && (s == t || s == "0x" + t) {
      assert ("0x" + t)[2..] == t;
      assert Prefixed(t) ==> !IsHex(t[1]);
    }
    if t :| Digits(t) && (s == t || s == "-" + t) {
      assert ("-" + t)[1..] == t;
      assert IsDigit(t[0]);
    }
  }

  /** Of the texts a request may carry, exactly those without a minus are read; BigInt throws on the others. */
  lemma AdmittedRead(s: string)
    requires Admitted(s)
    ensures ParseFieldElement(s).Some? <==> s[0] != '-'
  {
    TrimAround([], s, []);
    assert [] + s + [] == s;
    if s[0] == '-' {
      assert s[0] == '-' && !AllHex(s) && !AllDigits(s);
    } else if Prefixed(s) {
      assert s[1] == 'x';
    }
  }
}
