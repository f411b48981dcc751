/** Printing and parsing of user ids: `fmt.Sprintf("%v", id)` and `strconv.ParseUint(s, 10, 32)`. */
module Decimal {
  import opened Wrappers

  const MAX_UINT32: nat := 0xFFFF_FFFF

  type UserId = n: nat | n <= MAX_UINT32

  predicate IsDigit(c: char) {
    '0' <= c <= '9'
  }

  function DigitValue(c: char): (d: nat)
    requires IsDigit(c)
    ensures d < 10
  {
    (c as int) - ('0' as int)
  }

  function DigitChar(d: nat): (c: char)
    requires d < 10
    ensures IsDigit(c) && DigitValue(c) == d
  {
    (('0' as int) + d) as char
  }

  function Print(n: nat): (s: string)
    ensures s != ""
  {
    if n < 10 then [DigitChar(n)] else Print(n / 10) + [DigitChar(n % 10)]
  }

  /** One more digit: fails on other characters and on numbers above 32 bits. */
  function PushDigit(acc: nat, c: char): Option<nat> {
    if !IsDigit(c) then None
    else if acc * 10 + DigitValue(c) > MAX_UINT32 then None
    else Some(acc * 10 + DigitValue(c))
  }

  function ParseFrom(acc: nat, s: string): (n: Option<nat>)
    ensures n.Some? && acc <= MAX_UINT32 ==> n.value <= MAX_UINT32
    decreases |s|
  {
    if s == "" then Some(acc)
    else
      match PushDigit(acc, s[0])
      case None => None
      case Some(next) => ParseFrom(next, s[1..])
  }

  function ParseUint32(s: string): Option<UserId> {
    if s == "" then None
    else
      match ParseFrom(0, s)
      case None => None
      case Some(n) => Some(n)
  }

  lemma {:induction false} ParseSnoc(acc: nat, s: string, c: char)
    ensures ParseFrom(acc, s + [c]) ==
            match ParseFrom(acc, s) { case None => None case Some(n) => PushDigit(n, c) }
    decreases |s|
  {
    var all := s + [c];
    if s == "" {
      assert all[1..] == "";
    } else {
      assert all[1..] == s[1..] + [c];
      match PushDigit(acc, s[0])
      case None =>
      case Some(next) => ParseSnoc(next, s[1..], c);
    }
  }

  /** Parsing undoes printing, on every 32-bit id. */
  lemma {:induction false} ParsePrint(n: nat)
    requires n <= MAX_UINT32
    ensures ParseUint32(Print(n)) == Some(n)
  {
    if n < 10 {
      assert Print(n)[1..] == "" && PushDigit(0, Print(n)[0]) == Some(n);
      assert ParseFrom(n, "") == Some(n);
    } else {
      ParsePrint(n / 10);
      ParseSnoc(0, Print(n / 10), DigitChar(n % 10));
    }
  }

  /** The number a string of decimal digits stands for. */
  function Value(s: string): int {
    if s == "" then 0 else 10 * Value(s[..|s| - 1]) + (s[|s| - 1] as int - '0' as int)
  }

  ghost predicate AllDigits(s: string) {
    forall i | 0 <= i < |s| :: '0' <= s[i] <= '9'
  }

  lemma {:induction false} ParseFromIsValue(s: string)
    ensures AllDigits(s) ==> Value(s) >= 0
    ensures ParseFrom(0, s).Some? <==> AllDigits(s) && Value(s) <= 4_294_967_295
    ensures ParseFrom(0, s).Some? ==> ParseFrom(0, s).value == Value(s)
  {
    if s != "" {
      var front, last := s[..|s| - 1], s[|s| - 1];
      assert s == front + [last];
      ParseFromIsValue(front);
      ParseSnoc(0, front, last);
      assert AllDigits(s) <==> AllDigits(front) && '0' <= last <= '9' by {
        assert forall i | 0 <= i < |front| :: s[i] == front[i];
      }
    }
  }

  /** What parses is exactly a non-empty string of decimal digits whose value fits 32 bits; it parses to that value. */
  lemma ParseExactly(s: string)
    ensures ParseUint32(s).Some? <==> s != "" && AllDigits(s) && Value(s) <= 4_294_967_295
    ensures ParseUint32(s).Some? ==> ParseUint32(s).value == Value(s)
  {
    ParseFromIsValue(s);
  }

  /** No leading zero, apart from zero itself. */
  predicate Canonical(s: string) {
    |s| == 1 || (s != "" && s[0] != '0')
  }

  /** What parses is a 32-bit number, and printing gives the text back exactly when it has no leading zero. */
  lemma {:induction false} PrintParse(s: string)
    requires ParseUint32(s).Some?
    ensures Print(ParseUint32(s).value) == s <==> Canonical(s)
    ensures Canonical(s) && s != "0" ==> ParseUint32(s).value > 0
  {
    var n := ParseUint32(s).value;
    var front, last := s[..|s| - 1], s[|s| - 1];
    assert s == front + [last];
    ParseSnoc(0, front, last);
    PrintIsCanonical(n);
    if front != "" {
      PrintParse(front);
      var m := ParseUint32(front).value;
      assert n == m * 10 + DigitValue(last);
      PrintOfStep(m, last);
      assert s[0] == front[0];
    } else {
      assert n == DigitValue(last);
      assert Print(n) == [last];
    }
  }

  lemma PrintOfStep(m: nat, last: char)
    requires IsDigit(last)
    ensures m > 0 ==> Print(m * 10 + DigitValue(last)) == Print(m) + [last]
  {
    var n := m * 10 + DigitValue(last);
    assert n / 10 == m && n % 10 == DigitValue(last);
    assert DigitChar(n % 10) == last;
  }

  lemma {:induction false} PrintIsCanonical(n: nat)
    ensures Canonical(Print(n))
    ensures n > 0 ==> Print(n)[0] != '0'
  {
    if n >= 10 {
      PrintIsCanonical(n / 10);
    }
  }
}
