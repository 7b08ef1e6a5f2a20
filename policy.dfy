/**
 * The two fixed character allow-lists and the ASCII lower-casing used by
 * the prohibited-word checks (namechecker.py:7-9).
 */
module Policy {

  /** Python's `string.ascii_lowercase`, `string.ascii_uppercase` and `string.digits`. */
  const ASCII_LOWERCASE: string := "abcdefghijklmnopqrstuvwxyz"
  const ASCII_UPPERCASE: string := "ABCDEFGHIJKLMNOPQRSTUVWXYZ"
  const DIGITS: string := "0123456789"

  /** The punctuation written out in the source (the same 32 characters as `string.punctuation`). */
  const PUNCTUATION: string := "!\"#$%&'()*+,-./:;<=>?@[\\]^_`{|}~"

  /** `string.ascii_letters + string.digits + punctuation`. */
  const BASE_ALLOWED_CHARS: string := ASCII_LOWERCASE + ASCII_UPPERCASE + DIGITS + PUNCTUATION

  /** Characters allowed in a global username: no space. */
  const USERNAME_ALLOWED: set<char> := set c | c in BASE_ALLOWED_CHARS

  /** Characters allowed in a server nickname or a global display name. */
  const NICK_OR_GLOBAL_NAME_ALLOWED: set<char> := set c | c in BASE_ALLOWED_CHARS + " "

  lemma LowercaseIsRange(c: char)
    ensures c in ASCII_LOWERCASE <==> 'a' <= c <= 'z'
  {
  }

  lemma UppercaseIsRange(c: char)
    ensures c in ASCII_UPPERCASE <==> 'A' <= c <= 'Z'
  {
  }

  lemma DigitsIsRange(c: char)
    ensures c in DIGITS <==> '0' <= c <= '9'
  {
  }

  /** The punctuation fills the four gaps of printable ASCII around the letters and digits. */
  lemma PunctuationIsRanges(c: char)
    ensures c in PUNCTUATION <==> '!' <= c <= '/' || ':' <= c <= '@' || '[' <= c <= '`' || '{' <= c <= '~'
  {
  }

  /** The username set is exactly the printable ASCII characters other than space. */
  lemma UsernameAllowedIsPrintableAscii(c: char)
    ensures c in USERNAME_ALLOWED <==> '!' <= c <= '~'
  {
    LowercaseIsRange(c);
    UppercaseIsRange(c);
    DigitsIsRange(c);
    PunctuationIsRanges(c);
    assert c in BASE_ALLOWED_CHARS <==>
      c in ASCII_LOWERCASE || c in ASCII_UPPERCASE || c in DIGITS || c in PUNCTUATION;
  }

  /** The nickname set is the username set plus the space character, which the username set lacks. */
  lemma NickSetIsUsernameSetPlusSpace()
    ensures NICK_OR_GLOBAL_NAME_ALLOWED == USERNAME_ALLOWED + {' '}
    ensures ' ' !in USERNAME_ALLOWED
  {
    UsernameAllowedIsPrintableAscii(' ');
  }

  /** ASCII upper-case letters map to lower case; every other character is unchanged. */
  function Lower(c: char): char {
    if 'A' <= c <= 'Z' then (c as int + ('a' as int - 'A' as int)) as char else c
  }

  /** Character-wise lower-casing of a string (`str.lower()` on ASCII text). */
  function LowerStr(s: string): (r: string)
    ensures |r| == |s|
  {
    seq(|s|, i requires 0 <= i < |s| => Lower(s[i]))
  }

  /** A string that lower-casing leaves unchanged. */
  predicate IsLower(s: string) {
    LowerStr(s) == s
  }

  /** Lower-casing twice is lower-casing once. */
  lemma LowerStrIdempotent(s: string)
    ensures IsLower(LowerStr(s))
  {
  }
}
