/** InputValidator.java: the syntactic checks the console shell applies to
    user input before it calls the ledger. The two regular expressions are
    restated as character-class and length conditions. */
module InputValidator {
  import opened Decimal

  /** A Java `String` reference, which may be null. */
  datatype Option<+T> = None | Some(value: T)

  predicate IsAsciiLetter(c: char) { 'a' <= c <= 'z' || 'A' <= c <= 'Z' }

  /** The class `\s` of java.util.regex without UNICODE_CHARACTER_CLASS:
      space, tab, line feed, vertical tab, form feed, carriage return. */
  predicate IsRegexSpace(c: char)
  {
    c == ' ' || c == '\t' || c == '\n' || c as int == 0x0B || c as int == 0x0C || c == '\r'
  }

  /** The class `[a-zA-Z\s]`. */
  predicate IsNameChar(c: char) { IsAsciiLetter(c) || IsRegexSpace(c) }

  /** The matcher's scan of a character class repeated over the whole input:
      every character, taken from the left, must belong to the class p. */
  predicate AllChars(s: string, p: char -> bool)
  {
    s == [] || (p(s[0]) && AllChars(s[1..], p))
  }

  lemma {:induction false} AllCharsIff(s: string, p: char -> bool)
    ensures AllChars(s, p) <==> forall i :: 0 <= i < |s| ==> p(s[i])
    decreases |s|
  {
    if s != [] {
      AllCharsIff(s[1..], p);
      assert forall i :: 1 <= i < |s| ==> s[i] == s[1..][i - 1];
    }
  }

  /** isValidName: non-null and matches `^[a-zA-Z\s]{2,50}$`. */
  predicate IsValidName(name: Option<string>)
  {
    name.Some? && 2 <= |name.value| <= 50 && AllChars(name.value, IsNameChar)
  }

  lemma IsValidNameIff(name: Option<string>)
    ensures IsValidName(name) <==>
      name.Some? && 2 <= |name.value| <= 50 &&
      forall i :: 0 <= i < |name.value| ==> IsAsciiLetter(name.value[i]) || IsRegexSpace(name.value[i])
  {
    if name.Some? {
      AllCharsIff(name.value, IsNameChar);
    }
  }

  /** isValidAccountNumber: non-null and matches `^ACC\d{6}$` (`\d` is [0-9]). */
  predicate IsValidAccountNumber(accountNumber: Option<string>)
  {
    accountNumber.Some? && |accountNumber.value| == 9 &&
    accountNumber.value[..3] == "ACC" && AllChars(accountNumber.value[3..], IsDigit)
  }

  lemma IsValidAccountNumberIff(accountNumber: Option<string>)
    ensures IsValidAccountNumber(accountNumber) <==>
      accountNumber.Some? && |accountNumber.value| == 9 &&
      accountNumber.value[0] == 'A' && accountNumber.value[1] == 'C' && accountNumber.value[2] == 'C' &&
      forall i :: 3 <= i < 9 ==> IsDigit(accountNumber.value[i])
  {
    if accountNumber.Some? && |accountNumber.value| == 9 {
      var s := accountNumber.value;
      AllCharsIff(s[3..], IsDigit);
      assert forall i :: 3 <= i < 9 ==> s[i] == s[3..][i - 3];
      assert s[..3] == "ACC" <==> s[0] == 'A' && s[1] == 'C' && s[2] == 'C' by {
        if s[0] == 'A' && s[1] == 'C' && s[2] == 'C' {
          assert s[..3] == [s[0], s[1], s[2]];
        }
      }
    }
  }

  /** isValidAmount: strictly positive and at most one million. */
  predicate IsValidAmount(amount: real)
  {
    amount > 0.0 && amount <= 1000000.0
  }

  function UpperAscii(c: char): char
  {
    if 'a' <= c <= 'z' then (c as int - 32) as char else c
  }

  function LowerAscii(c: char): char
  {
    if 'A' <= c <= 'Z' then (c as int + 32) as char else c
  }

  /** Character comparison of String.equalsIgnoreCase, with the case
      mappings restricted to ASCII: the characters are equal, or their
      upper-case forms are, or the lower-case forms of those. */
  predicate CharsEqualIgnoreCase(x: char, y: char)
  {
    x == y || UpperAscii(x) == UpperAscii(y) ||
    LowerAscii(UpperAscii(x)) == LowerAscii(UpperAscii(y))
  }

  predicate EqualsIgnoreCase(a: string, b: string)
  {
    |a| == |b| && forall i :: 0 <= i < |a| ==> CharsEqualIgnoreCase(a[i], b[i])
  }

  /** isValidAccountType: non-null and one of SAVINGS, CURRENT, SALARY, ignoring case. */
  predicate IsValidAccountType(accountType: Option<string>)
  {
    accountType.Some? &&
    (EqualsIgnoreCase(accountType.value, "SAVINGS") ||
     EqualsIgnoreCase(accountType.value, "CURRENT") ||
     EqualsIgnoreCase(accountType.value, "SALARY"))
  }

  function UpperString(s: string): (u: string)
    ensures |u| == |s| && forall i :: 0 <= i < |s| ==> u[i] == UpperAscii(s[i])
  {
    seq(|s|, i requires 0 <= i < |s| => UpperAscii(s[i]))
  }

  predicate IsUpperWord(b: string) { forall i :: 0 <= i < |b| ==> 'A' <= b[i] <= 'Z' }

  /** Against a word in capitals, ignoring case means: the input in capitals is that word. */
  lemma EqualsIgnoreCaseUpper(a: string, b: string)
    requires IsUpperWord(b)
    ensures EqualsIgnoreCase(a, b) <==> UpperString(a) == b
  {
    if |a| == |b| {
      forall i | 0 <= i < |a|
        ensures CharsEqualIgnoreCase(a[i], b[i]) <==> UpperAscii(a[i]) == b[i]
      {
      }
    }
  }

  lemma IsValidAccountTypeIff(accountType: Option<string>)
    ensures IsValidAccountType(accountType) <==>
      accountType.Some? && UpperString(accountType.value) in {"SAVINGS", "CURRENT", "SALARY"}
  {
    if accountType.Some? {
      EqualsIgnoreCaseUpper(accountType.value, "SAVINGS");
      EqualsIgnoreCaseUpper(accountType.value, "CURRENT");
      EqualsIgnoreCaseUpper(accountType.value, "SALARY");
    }
  }
}
