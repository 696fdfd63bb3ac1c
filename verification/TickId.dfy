/** Tick identifiers (src/history.rs) and the transcript paths derived from them. */
module TickId {
  import opened Numbers

  const NANOS: nat := 1_000_000_000

  /** Both parts are printed in unpadded lower-case hexadecimal. */
  function NewTickId(seconds: nat, nanos: nat): string {
    Show(seconds, Sixteen) + Show(nanos, Sixteen)
  }

  function TranscriptPath(tickId: string): string {
    "/tmp/cmmd-tick-" + tickId + ".log"
  }

  /** Clock values whose seconds print as exactly eight hexadecimal digits: July 1978 to 2106. */
  predicate EightDigits(seconds: nat) {
    0x1000_0000 <= seconds < 0x1_0000_0000
  }

  lemma EightDigitsLength(seconds: nat)
    requires EightDigits(seconds)
    ensures |Show(seconds, Sixteen)| == 8
  {
    assert Power16(4) == 0x1_0000;
    assert Power16(7) == 0x1000_0000;
    assert Power16(8) == 0x1_0000_0000;
    HexLength(seconds, 7);
  }

  /** Two clock pairs with seconds of the same printed width never share an identifier. */
  lemma SameWidthInjective(s: nat, n: nat, s': nat, n': nat)
    requires |Show(s, Sixteen)| == |Show(s', Sixteen)|
    ensures NewTickId(s, n) == NewTickId(s', n') <==> s == s' && n == n'
  {
    if NewTickId(s, n) == NewTickId(s', n') {
      var k := |Show(s, Sixteen)|;
      assert Show(s, Sixteen) == NewTickId(s, n)[..k] && Show(n, Sixteen) == NewTickId(s, n)[k..];
      assert Show(s', Sixteen) == NewTickId(s', n')[..k] && Show(n', Sixteen) == NewTickId(s', n')[k..];
      ReadOfShow(s, Sixteen);
      ReadOfShow(s', Sixteen);
      ReadOfShow(n, Sixteen);
      ReadOfShow(n', Sixteen);
    }
  }

  /** In the eight-digit era different clock pairs write different transcript files. */
  lemma TranscriptsDiffer(s: nat, n: nat, s': nat, n': nat)
    requires EightDigits(s) && EightDigits(s')
    ensures TranscriptPath(NewTickId(s, n)) == TranscriptPath(NewTickId(s', n')) <==> s == s' && n == n'
  {
    EightDigitsLength(s);
    EightDigitsLength(s');
    SameWidthInjective(s, n, s', n');
    var p, p' := TranscriptPath(NewTickId(s, n)), TranscriptPath(NewTickId(s', n'));
    var k := |"/tmp/cmmd-tick-"|;
    assert NewTickId(s, n) == p[k..|p| - 4] && NewTickId(s', n') == p'[k..|p'| - 4];
  }

  /** Some two nanosecond counts give the two seconds the same identifier. */
  ghost predicate Collide(s: nat, s': nat) {
    exists n: nat, n': nat :: n < 1_000_000_000 && n' < 1_000_000_000 && NewTickId(s, n) == NewTickId(s', n')
  }

  /** s' is s followed by one or more hexadecimal digits, the first of them not zero, that leave room
      for another digit below the nanosecond limit. */
  ghost predicate Lengthens(s: nat, s': nat) {
    s > 0 && exists k: nat, r: nat :: LengthensBy(s, s', k, r)
  }

  predicate LengthensBy(s: nat, s': nat, k: nat, r: nat) {
    k >= 1 && Power16(k - 1) <= r < Power16(k) && r * 16 < 1_000_000_000 && s' == s * Power16(k) + r
  }

  lemma DigitsOf(k: nat, r: nat)
    requires k >= 1 && Power16(k - 1) <= r < Power16(k)
    ensures r > 0 && |Show(r, Sixteen)| == k
  {
    PowerPositive(k - 1);
    HexLength(r, k - 1);
  }

  lemma LengthenedCollides(s: nat, s': nat)
    requires Lengthens(s, s')
    ensures Collide(s, s')
  {
    var k: nat, r: nat :| LengthensBy(s, s', k, r);
    DigitsOf(k, r);
    ShowConcat(s, r);
    ShowSnoc(r * 16);
    assert r * 16 / 16 == r && r * 16 % 16 == 0;
    assert Show(0, Sixteen) == [DigitChar(0)];
    assert NewTickId(s, r * 16) == Show(s, Sixteen) + (Show(r, Sixteen) + [DigitChar(0)]);
    assert NewTickId(s', 0) == Show(s, Sixteen) + Show(r, Sixteen) + [DigitChar(0)];
    assert NewTickId(s, r * 16) == NewTickId(s', 0);
  }

  lemma Overhang(a: string, b: string, a': string, b': string) returns (x: string)
    requires a + b == a' + b' && |a| < |a'|
    ensures x != "" && a' == a + x && b == x + b'
  {
    var t := a + b;
    x := a'[|a|..];
    assert a == t[..|a|] && a' == t[..|a'|] && b == t[|a|..];
    assert b' == (a' + b')[|a'|..] == t[|a'|..];
  }

  /** If an identifier splits differently, the digits in between belong to the longer seconds and lead
      the other's nanoseconds. */
  lemma CollidedLengthens(s: nat, n: nat, s': nat, n': nat)
    requires n < NANOS && NewTickId(s, n) == NewTickId(s', n')
    requires |Show(s, Sixteen)| < |Show(s', Sixteen)|
    ensures Lengthens(s, s')
  {
    var x := Overhang(Show(s, Sixteen), Show(n, Sixteen), Show(s', Sixteen), Show(n', Sixteen));
    OverhangLengthens(s, s', n, |Show(n', Sixteen)|, x);
  }

  lemma OverhangLengthens(s: nat, s': nat, n: nat, j: nat, x: string)
    requires n < NANOS && 0 < j && x != "" && |Show(n, Sixteen)| == |x| + j
    requires Show(s', Sixteen) == Show(s, Sixteen) + x && x == Show(n, Sixteen)[..|x|]
    ensures Lengthens(s, s')
  {
    var k, r := |x|, Dropped(n, j);
    ShowPrefix(n, j);
    DroppedBound(n, j);
    assert Show(r, Sixteen) == x;
    NotZero(s, s', n, r);
    DigitsLengthen(s, s', k, r);
  }

  lemma DigitsLengthen(s: nat, s': nat, k: nat, r: nat)
    requires s > 0 && r > 0 && r * 16 < 1_000_000_000 && |Show(r, Sixteen)| == k
    requires Show(s', Sixteen) == Show(s, Sixteen) + Show(r, Sixteen)
    ensures Lengthens(s, s')
  {
    var top := ShowLength(r);
    ShowConcat(s, r);
    ShowInjective(s', s * Power16(k) + r);
    assert LengthensBy(s, s', k, r);
  }

  /** Neither the shorter seconds nor the digits in between are zero, as no longer number begins with
      that digit. */
  lemma NotZero(s: nat, s': nat, n: nat, r: nat)
    requires |Show(s, Sixteen)| < |Show(s', Sixteen)| && Show(s, Sixteen) <= Show(s', Sixteen)
    requires |Show(r, Sixteen)| < |Show(n, Sixteen)| && Show(r, Sixteen) <= Show(n, Sixteen)
    ensures s > 0 && r > 0
  {
    FirstDigit(s);
    FirstDigit(s');
    FirstDigit(r);
    FirstDigit(n);
    assert Show(s, Sixteen)[0] == Show(s', Sixteen)[0] && Show(r, Sixteen)[0] == Show(n, Sixteen)[0];
    assert |Show(0, Sixteen)| == 1;
  }

  /** Without the fixed width identifiers collide: two different seconds can share one, at some
      nanoseconds, if and only if one of them lengthens the other. */
  lemma WidthMatters(s: nat, s': nat)
    requires s != s'
    ensures Collide(s, s') <==> Lengthens(s, s') || Lengthens(s', s)
  {
    if Collide(s, s') {
      var n: nat, n': nat :| n < NANOS && n' < NANOS && NewTickId(s, n) == NewTickId(s', n');
      if |Show(s, Sixteen)| < |Show(s', Sixteen)| {
        CollidedLengthens(s, n, s', n');
      } else if |Show(s', Sixteen)| < |Show(s, Sixteen)| {
        CollidedLengthens(s', n', s, n);
      } else {
        SameWidthInjective(s, n, s', n');
      }
    }
    if Lengthens(s, s') {
      LengthenedCollides(s, s');
    }
    if Lengthens(s', s) {
      LengthenedCollides(s', s);
      var n: nat, n': nat :| n < NANOS && n' < NANOS && NewTickId(s', n) == NewTickId(s, n');
      assert Collide(s, s');
    }
  }
}
