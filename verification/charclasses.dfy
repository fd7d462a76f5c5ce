/** Character classes of the tokenizer, ASCII lower-casing, and the whitespace
    class of JavaScript regular expressions (`\s`), which the text passes use. */
module CharClasses {

  /** The form-feed character, `"\f"` in JavaScript. */
  const FormFeed: char := '\U{000C}'

  /** The tokenizer's notion of space: exactly space, line feed, tab and form feed. */
  predicate IsCharSpace(c: char) {
    c == ' ' || c == '\n' || c == '\t' || c == FormFeed
  }

  /** Compares the character code against the codes of `0` and `9`. */
  predicate IsCharDigit(c: char) {
    '0' as int <= c as int <= '9' as int
  }

  predicate IsCharAlpha(c: char) {
    ('a' as int <= c as int <= 'z' as int) || ('A' as int <= c as int <= 'Z' as int)
  }

  predicate IsCharHex(c: char) {
    IsCharDigit(c) || ('a' as int <= c as int <= 'f' as int) || ('A' as int <= c as int <= 'F' as int)
  }

  predicate IsCharBase64(c: char) {
    IsCharAlpha(c) || IsCharDigit(c) || c == '_' || c == '-'
  }

  /** The characters matched by `\s` in an ECMAScript regular expression:
      the WhiteSpace and LineTerminator code points of ECMA-262. */
  predicate IsJsWhitespace(c: char) {
    var n := c as int;
    || (0x09 <= n <= 0x0D)          // tab, line feed, vertical tab, form feed, carriage return
    || n == 0x20 || n == 0xA0 || n == 0x1680
    || (0x2000 <= n <= 0x200A)
    || n == 0x2028 || n == 0x2029 || n == 0x202F || n == 0x205F || n == 0x3000 || n == 0xFEFF
  }

  predicate IsUpperAscii(c: char) {
    'A' <= c <= 'Z'
  }

  /** ASCII lower-casing: the model's stand-in for `toLowerCase` on one character. */
  function ToLowerAscii(c: char): (r: char)
    ensures !IsUpperAscii(r)
    ensures IsUpperAscii(c) ==> r as int == c as int + 32
    ensures !IsUpperAscii(c) ==> r == c
    ensures IsCharAlpha(r) <==> IsCharAlpha(c)
  {
    if IsUpperAscii(c) then (c as int + 32) as char else c
  }

  /** No ASCII upper-case letter occurs in `s`. */
  predicate IsLowerString(s: string) {
    forall i :: 0 <= i < |s| ==> !IsUpperAscii(s[i])
  }

  function LowerString(s: string): (r: string)
    ensures |r| == |s|
    ensures IsLowerString(r)
    ensures forall i :: 0 <= i < |s| ==> r[i] == ToLowerAscii(s[i])
  {
    seq(|s|, i requires 0 <= i < |s| => ToLowerAscii(s[i]))
  }

  const UpperLetters: string := "ABCDEFGHIJKLMNOPQRSTUVWXYZ"

  const LowerLetters: string := "abcdefghijklmnopqrstuvwxyz"

  const DecimalDigits: string := "0123456789"

  const HexLetters: string := "abcdefABCDEF"

  /** The four characters the tokenizer treats as space, and no other. */
  lemma SpaceIsExactlyFour(c: char)
    ensures IsCharSpace(c) <==> c in [' ', '\n', '\t', FormFeed]
  {
  }

  /** The tokenizer's space class is strictly narrower than `\s`. */
  lemma SpaceNarrowerThanJsWhitespace(c: char)
    ensures IsCharSpace(c) ==> IsJsWhitespace(c)
    ensures IsJsWhitespace('\r') && !IsCharSpace('\r')
    ensures IsJsWhitespace('\U{00A0}') && !IsCharSpace('\U{00A0}')
  {
  }

  /** The code-range test accepts exactly the 52 ASCII letters. */
  lemma AlphaIsExactlyTheLetters(c: char)
    ensures IsCharAlpha(c) <==> c in UpperLetters + LowerLetters
  {
    UpperIsRange(c);
    LowerIsRange(c);
    assert c in UpperLetters + LowerLetters <==> c in UpperLetters || c in LowerLetters;
  }

  lemma {:induction false} UpperIsRange(c: char)
    ensures 'A' as int <= c as int <= 'Z' as int <==> c in UpperLetters
  {
    if 'A' as int <= c as int <= 'Z' as int {
      assert UpperLetters[c as int - 'A' as int] == c;
    }
  }

  lemma {:induction false} LowerIsRange(c: char)
    ensures 'a' as int <= c as int <= 'z' as int <==> c in LowerLetters
  {
    if 'a' as int <= c as int <= 'z' as int {
      assert LowerLetters[c as int - 'a' as int] == c;
    }
  }

  lemma {:induction false} DigitIsExactlyTheDigits(c: char)
    ensures IsCharDigit(c) <==> c in DecimalDigits
  {
    if IsCharDigit(c) {
      var k := c as int - '0' as int;
      assert DecimalDigits[k] == c;
    }
  }

  /** A hex character is a digit or one of a-f, A-F; in particular every digit is hex. */
  lemma {:induction false} HexIsDigitOrHexLetter(c: char)
    ensures IsCharHex(c) <==> c in DecimalDigits || c in HexLetters
    ensures IsCharDigit(c) ==> IsCharHex(c)
    ensures IsCharHex(c) ==> IsCharDigit(c) || IsCharAlpha(c)
  {
    DigitIsExactlyTheDigits(c);
    if 'a' as int <= c as int <= 'f' as int {
      assert HexLetters[c as int - 'a' as int] == c;
    } else if 'A' as int <= c as int <= 'F' as int {
      assert HexLetters[6 + c as int - 'A' as int] == c;
    }
  }

  /** Base64 (in the URL-safe alphabet) is letters, digits, `_` and `-`; these
      classes are disjoint from the tokenizer's spaces. */
  lemma Base64Classes(c: char)
    ensures IsCharBase64(c) <==> c in UpperLetters + LowerLetters || c in DecimalDigits || c == '_' || c == '-'
    ensures IsCharHex(c) ==> IsCharBase64(c)
    ensures IsCharBase64(c) ==> !IsCharSpace(c) && !IsJsWhitespace(c)
    ensures !(IsCharAlpha(c) && IsCharDigit(c))
  {
    AlphaIsExactlyTheLetters(c);
    DigitIsExactlyTheDigits(c);
  }

  /** Lower-casing leaves lower-case strings alone and is idempotent. */
  lemma LowerStringIdempotent(s: string)
    ensures IsLowerString(s) ==> LowerString(s) == s
    ensures LowerString(LowerString(s)) == LowerString(s)
  {
  }
}
