/** The character classes of the expressions, as alphabets. */
module ImageAlphabets {
  import opened Regex

  const LOWER := "abcdefghijklmnopqrstuvwxyz"
  const UPPER := "ABCDEFGHIJKLMNOPQRSTUVWXYZ"
  const DIGITS := "0123456789"
  const HEX := "0123456789abcdefABCDEF"

  lemma IsLower(c: char)
    ensures c in LOWER <==> 'a' <= c <= 'z'
  {
    if 'a' <= c <= 'z' {
      assert LOWER[c as int - 'a' as int] == c;
    }
  }

  lemma IsUpper(c: char)
    ensures c in UPPER <==> 'A' <= c <= 'Z'
  {
    if 'A' <= c <= 'Z' {
      assert UPPER[c as int - 'A' as int] == c;
    }
  }

  lemma IsDigit(c: char)
    ensures c in DIGITS <==> '0' <= c <= '9'
  {
    if '0' <= c <= '9' {
      assert DIGITS[c as int - '0' as int] == c;
    }
  }

  lemma IsHex(c: char)
    ensures c in HEX <==> '0' <= c <= '9' || 'a' <= c <= 'f' || 'A' <= c <= 'F'
  {
    if '0' <= c <= '9' {
      assert HEX[c as int - '0' as int] == c;
    } else if 'a' <= c <= 'f' {
      assert HEX[10 + c as int - 'a' as int] == c;
    } else if 'A' <= c <= 'F' {
      assert HEX[16 + c as int - 'A' as int] == c;
    }
  }

  lemma ClassesAreAlphabets(c: char)
    ensures InClass(LowerAlnum, c) <==> c in LOWER || c in DIGITS
    ensures InClass(Alnum, c) <==> c in LOWER || c in UPPER || c in DIGITS
    ensures InClass(AlnumDash, c) <==> c in LOWER || c in UPPER || c in DIGITS || c == '-'
    ensures InClass(Word, c) <==> c in LOWER || c in UPPER || c in DIGITS || c == '_'
    ensures InClass(WordDotDash, c) <==> c in LOWER || c in UPPER || c in DIGITS || c in "_.-"
    ensures InClass(Alpha, c) <==> c in LOWER || c in UPPER
    ensures InClass(Digit, c) <==> c in DIGITS
    ensures InClass(HexDigit, c) <==> c in HEX
    ensures InClass(DotUnderscore, c) <==> c in "._"
    ensures InClass(DigestSeparator, c) <==> c in "-_+."
    ensures InClass(ColonAt, c) <==> c in ":@"
  {
    IsLower(c);
    IsUpper(c);
    IsDigit(c);
    IsHex(c);
  }
}
