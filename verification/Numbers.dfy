/** Positional notation: what `{}` and `{:x}` print and what `str::parse` of an unsigned type reads. */
module Numbers {
  import opened Wrappers

  datatype Base = Ten | Sixteen {
    function Size(): nat {
      if Ten? then 10 else 16
    }

    function Quotient(n: nat): nat {
      if Ten? then n / 10 else n / 16
    }

    function Remainder(n: nat): (d: nat)
      ensures d < Size()
    {
      if Ten? then n % 10 else n % 16
    }

    function Append(v: nat, d: nat): nat {
      if Ten? then v * 10 + d else v * 16 + d
    }
  }

  function DigitChar(d: nat): char
    requires d < 16
  {
    if d < 10 then ('0' as int + d) as char else ('a' as int + d - 10) as char
  }

  predicate IsDigit(c: char) {
    '0' <= c <= '9' || 'a' <= c <= 'f'
  }

  function Show(n: nat, base: Base): (s: string)
    ensures s != "" && forall i :: 0 <= i < |s| ==> IsDigit(s[i])
    decreases n
  {
    if n < base.Size() then [DigitChar(n)]
    else Show(base.Quotient(n), base) + [DigitChar(base.Remainder(n))]
  }

  function Digit(c: char): Option<nat> {
    if '0' <= c <= '9' then Some(c as nat - '0' as nat)
    else if 'a' <= c <= 'f' then Some(c as nat - 'a' as nat + 10)
    else None
  }

  function Read(s: string, base: Base): Option<nat> {
    if s == "" then Some(0)
    else
      match Read(s[..|s| - 1], base)
      case None => None
      case Some(v) =>
        match Digit(s[|s| - 1])
        case None => None
        case Some(d) => if d < base.Size() then Some(base.Append(v, d)) else None
  }

  /** `str::parse` of an unsigned type whose largest value is max: one leading plus sign is
      allowed, an empty digit string and an overflow are errors. */
  function ParseUnsigned(s: string, max: nat): Option<nat> {
    var digits := if s != "" && s[0] == '+' then s[1..] else s;
    if digits == "" then None
    else
      match Read(digits, Ten)
      case Some(v) => if v <= max then Some(v) else None
      case None => None
  }

  lemma DigitShown(d: nat)
    requires d < 16
    ensures Digit(DigitChar(d)) == Some(d)
  {
  }

  lemma ReadSnoc(s: string, c: char, base: Base, v: nat, d: nat)
    requires Read(s, base) == Some(v) && Digit(c) == Some(d) && d < base.Size()
    ensures Read(s + [c], base) == Some(base.Append(v, d))
  {
    assert (s + [c])[..|s|] == s;
  }

  lemma DigitsRejoin(n: nat, base: Base)
    ensures base.Append(base.Quotient(n), base.Remainder(n)) == n
  {
  }

  /** Reading undoes printing. */
  lemma {:induction false} ReadOfShow(n: nat, base: Base)
    ensures Read(Show(n, base), base) == Some(n)
    decreases n
  {
    if n < base.Size() {
      DigitShown(n);
      var empty: string := "";
      assert Read(empty, base) == Some(0);
      ReadSnoc(empty, DigitChar(n), base, 0, n);
      assert empty + [DigitChar(n)] == [DigitChar(n)];
    } else {
      var q, d := base.Quotient(n), base.Remainder(n);
      DigitShown(d);
      ReadOfShow(q, base);
      DigitsRejoin(n, base);
      ReadSnoc(Show(q, base), DigitChar(d), base, q, d);
    }
  }

  lemma ParseOfShow(n: nat, max: nat)
    requires n <= max
    ensures ParseUnsigned(Show(n, Ten), max) == Some(n)
  {
    ReadOfShow(n, Ten);
    assert IsDigit(Show(n, Ten)[0]);
  }

  function Power16(k: nat): nat {
    if k == 0 then 1 else 16 * Power16(k - 1)
  }

  /** The order of magnitude fixes the number of hexadecimal digits. */
  lemma {:induction false} HexLength(n: nat, k: nat)
    requires Power16(k) <= n < Power16(k + 1)
    ensures |Show(n, Sixteen)| == k + 1
  {
    if k == 0 {
      assert Power16(1) == 16 * Power16(0);
    } else {
      HexLength(n / 16, k - 1);
      assert 16 <= n by {
        PowerPositive(k - 1);
      }
    }
  }

  lemma {:induction false} PowerPositive(k: nat)
    ensures 1 <= Power16(k)
  {
    if k > 0 {
      PowerPositive(k - 1);
    }
  }

  // ----- What the digits mean -----

  lemma DigitIs(d: nat)
    requires d < 16
    ensures DigitChar(d) == "0123456789abcdef"[d]
  {
  }

  /** The last digit counts ones and the others tens. */
  lemma ShowTen(q: nat, d: nat)
    requires d < 10
    ensures q > 0 ==> Show(10 * q + d, Ten) == Show(q, Ten) + ["0123456789"[d]]
    ensures Show(d, Ten) == ["0123456789"[d]]
  {
    DigitIs(d);
  }

  predicate Decimal(s: string) {
    forall i :: 0 <= i < |s| ==> '0' <= s[i] <= '9'
  }

  predicate Zeros(s: string) {
    forall i :: 0 <= i < |s| ==> s[i] == '0'
  }

  lemma {:induction false} ReadIff(s: string)
    ensures Read(s, Ten).Some? <==> Decimal(s)
    ensures Read(s, Ten) == Some(0) <==> Zeros(s)
  {
    if s != "" {
      ReadIff(s[..|s| - 1]);
    }
  }

  /** An optional plus sign and then decimal digits, at least one, of a value that fits. */
  lemma ParseIff(s: string, max: nat, v: nat)
    ensures ParseUnsigned(s, max) == Some(v) <==>
              exists digits :: (s == digits || s == "+" + digits) && digits != "" && Decimal(digits)
                && Read(digits, Ten) == Some(v) && v <= max
  {
    var digits := if s != "" && s[0] == '+' then s[1..] else s;
    ReadIff(digits);
    assert s == digits || s == "+" + digits;
    if other :| (s == other || s == "+" + other) && other != "" && Decimal(other)
                && Read(other, Ten) == Some(v) && v <= max {
      assert ("+" + other)[1..] == other;
    }
  }

  // ----- Texts of digits cut in two -----

  /** Printing a number without its last digit leaves out the last character. */
  lemma ShowSnoc(n: nat)
    requires n >= 16
    ensures Show(n, Sixteen) == Show(n / 16, Sixteen) + [DigitChar(n % 16)]
  {
  }

  /** The number without its last j digits. */
  function Dropped(n: nat, j: nat): nat {
    if j == 0 then n else Dropped(n / 16, j - 1)
  }

  lemma {:induction false} DroppedBound(n: nat, j: nat)
    ensures Dropped(n, j) <= n && (j > 0 ==> Dropped(n, j) * 16 <= n)
  {
    if j > 0 {
      DroppedBound(n / 16, j - 1);
    }
  }

  /** Leading digits of a printed number are a printed number. */
  lemma {:induction false} ShowPrefix(n: nat, j: nat)
    requires j < |Show(n, Sixteen)|
    ensures Show(Dropped(n, j), Sixteen) == Show(n, Sixteen)[..|Show(n, Sixteen)| - j]
  {
    var s := Show(n, Sixteen);
    if j == 0 {
      assert s[..|s|] == s;
    } else {
      ShowSnoc(n);
      ShowPrefix(n / 16, j - 1);
      var t := Show(n / 16, Sixteen);
      assert s[..|s| - j] == t[..|t| - (j - 1)];
    }
  }

  lemma {:induction false} ShowLength(n: nat) returns (k: nat)
    ensures |Show(n, Sixteen)| == k + 1 && n < Power16(k + 1) && (n > 0 ==> Power16(k) <= n)
  {
    if n < 16 {
      k := 0;
      assert Power16(1) == 16;
    } else {
      ShowSnoc(n);
      var j := ShowLength(n / 16);
      k := j + 1;
    }
  }

  lemma ShiftDigits(s: nat, p: nat, r: nat)
    ensures (s * (16 * p) + r) / 16 == s * p + r / 16 && (s * (16 * p) + r) % 16 == r % 16
  {
    var h := s * p;
    assert s * (16 * p) == 16 * h;
  }

  /** The printings of two numbers put together print the number whose digits they are. */
  lemma {:induction false} ShowConcat(s: nat, r: nat)
    requires s > 0 && r > 0
    ensures Show(s, Sixteen) + Show(r, Sixteen) == Show(s * Power16(|Show(r, Sixteen)|) + r, Sixteen)
  {
    if r < 16 {
      ConcatDigit(s, r);
    } else {
      ShowSnoc(r);
      var t := Show(r / 16, Sixteen);
      ShowConcat(s, r / 16);
      ConcatMore(s, Power16(|t|), r);
      assert Power16(|Show(r, Sixteen)|) == 16 * Power16(|t|);
      assert Show(s, Sixteen) + Show(r, Sixteen) == Show(s, Sixteen) + t + [DigitChar(r % 16)];
    }
  }

  lemma ConcatDigit(s: nat, r: nat)
    requires s > 0 && r < 16
    ensures Show(s, Sixteen) + Show(r, Sixteen) == Show(s * Power16(|Show(r, Sixteen)|) + r, Sixteen)
  {
    assert |Show(r, Sixteen)| == 1 && Power16(1) == 16 * Power16(0) == 16;
    ShowSnoc(s * 16 + r);
    assert (s * 16 + r) / 16 == s && (s * 16 + r) % 16 == r;
  }

  lemma ConcatMore(s: nat, p: nat, r: nat)
    requires s > 0 && r >= 16
    ensures Show(s * (16 * p) + r, Sixteen) == Show(s * p + r / 16, Sixteen) + [DigitChar(r % 16)]
  {
    var m := s * (16 * p) + r;
    ShiftDigits(s, p, r);
    assert m >= 16 by {
      assert s * (16 * p) >= 0;
    }
    ShowSnoc(m);
  }

  lemma {:induction false} FirstDigit(n: nat)
    ensures Show(n, Sixteen)[0] == '0' <==> n == 0
  {
    if n >= 16 {
      ShowSnoc(n);
      FirstDigit(n / 16);
    }
  }

  lemma ShowInjective(n: nat, n': nat)
    requires Show(n, Sixteen) == Show(n', Sixteen)
    ensures n == n'
  {
    ReadOfShow(n, Sixteen);
    ReadOfShow(n', Sixteen);
  }
}
