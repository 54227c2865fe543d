/**
 * The entry code a user types: four or five ASCII digits, the first two the
 * seat number and the remaining two or three the score (`1025` is seat 10,
 * score 25; `45123` is seat 45, score 123).
 */
module CodeParser {
  import opened Wrappers
  import opened Text

  /** A decoded entry code. */
  datatype Code = Code(seat: nat, score: nat)

  /** The format check both front ends apply after stripping: only digits, four or five of them. */
  predicate WellFormed(t: string)
  {
    AllDigits(t) && (|t| == 4 || |t| == 5)
  }

  /** Decode stripped input: `int(t[:2])` is the seat, `int(t[2:])` the score;
      `None` is the format error. */
  function Parse(t: string): (r: Option<Code>)
    ensures r.Some? <==> WellFormed(t)
    ensures r.Some? ==> r.value.seat < 100 && r.value.score < Pow10(|t| - 2) && r.value.score < 1000
  {
    if !AllDigits(t) || !(|t| == 4 || |t| == 5) then None
    else
      assert AllDigits(t[..2]) && AllDigits(t[2..]);
      Some(Code(DigitsValue(t[..2]), DigitsValue(t[2..])))
  }

  /** The text that encodes a code: the seat in two digits, the score in
      `scoreDigits` digits, zeros in front. */
  function CodeText(c: Code, scoreDigits: nat): (t: string)
    requires c.seat < 100 && (scoreDigits == 2 || scoreDigits == 3) && c.score < Pow10(scoreDigits)
    ensures WellFormed(t) && |t| == 2 + scoreDigits
  {
    ZeroPad(c.seat, 2) + ZeroPad(c.score, scoreDigits)
  }

  /** Every code with a two-digit seat and a two- or three-digit score is read back exactly. */
  lemma ParseCodeText(c: Code, scoreDigits: nat)
    requires c.seat < 100 && (scoreDigits == 2 || scoreDigits == 3) && c.score < Pow10(scoreDigits)
    ensures Parse(CodeText(c, scoreDigits)) == Some(c)
  {
    var a, b := ZeroPad(c.seat, 2), ZeroPad(c.score, scoreDigits);
    var t := a + b;
    assert t[..2] == a && t[2..] == b;
    assert Parse(t) == Some(Code(DigitsValue(a), DigitsValue(b)));
  }

  /** Every accepted input is the encoding of what it decodes to: leading zeros
      in either field are the only freedom, and they are fixed by the length. */
  lemma ParsedIsCodeText(t: string)
    requires Parse(t).Some?
    ensures t == CodeText(Parse(t).value, |t| - 2)
  {
    var c := Parse(t).value;
    DigitsAreZeroPad(t[..2]);
    DigitsAreZeroPad(t[2..]);
    assert t == t[..2] + t[2..];
  }

  /** `1025` is seat 10, score 25. */
  lemma ParseFourDigits()
    ensures Parse("1025") == Some(Code(10, 25))
  {
    assert "1025"[..2] == "10" && "1025"[2..] == "25";
  }

  /** `45123` is seat 45, score 123. */
  lemma ParseFiveDigits()
    ensures Parse("45123") == Some(Code(45, 123))
  {
    assert "45123"[..2] == "45" && "45123"[2..] == "123";
    assert "123"[..2] == "12" && "12"[..1] == "1" && "1"[..0] == "";
  }

  /** Leading zeros are dropped: `0102` is seat 1, score 2, and `99001` is seat 99, score 1. */
  lemma ParseLeadingZeros()
    ensures Parse("0102") == Some(Code(1, 2))
    ensures Parse("99001") == Some(Code(99, 1))
  {
    assert "0102"[..2] == "01" && "0102"[2..] == "02";
    assert "99001"[..2] == "99" && "99001"[2..] == "001";
    assert "001"[..2] == "00" && "00"[..1] == "0" && "0"[..0] == "";
  }

  /** A letter, or a length other than four or five, is a format error. */
  lemma ParseRejects()
    ensures Parse("12a3") == None
    ensures Parse("123") == None && Parse("123456") == None && Parse("") == None
  {
    assert !IsDigit("12a3"[2]);
  }
}
