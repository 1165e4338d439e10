/** The sign-in form's field checks: e-mail shape, password strength, confirmation. */
module Validation {
  import opened Common

  /** A character JavaScript's regular-expression class `\s` matches. */
  predicate IsWhitespace(c: char)
  {
    var n := c as int;
    || 0x09 <= n <= 0x0D || n == 0x20 || n == 0xA0 || n == 0x1680
    || 0x2000 <= n <= 0x200A || n == 0x2028 || n == 0x2029 || n == 0x202F
    || n == 0x205F || n == 0x3000 || n == 0xFEFF
  }

  /** A character of the class `[^\s@]`. */
  predicate PlainChar(c: char)
  {
    !IsWhitespace(c) && c != '@'
  }

  /** A run matched by `[^\s@]+`. */
  ghost predicate Plain(s: string)
  {
    |s| > 0 && forall k :: 0 <= k < |s| ==> PlainChar(s[k])
  }

  /** The language of `/^[^\s@]+@[^\s@]+\.[^\s@]+$/`: a plain run, '@', a plain run, '.',
      a plain run. (A plain run may itself hold dots.) */
  ghost predicate EmailPattern(s: string)
  {
    exists i, j :: SplitsAt(s, i, j)
  }

  /** `s` matches the pattern with its '@' at `i` and the chosen '.' at `j`. */
  ghost predicate SplitsAt(s: string, i: int, j: int)
  {
    && 0 < i < j < |s| - 1 && s[i] == '@' && s[j] == '.'
    && Plain(s[..i]) && Plain(s[i + 1..j]) && Plain(s[j + 1..])
  }

  predicate NoWhitespace(s: string)
  {
    forall k :: 0 <= k < |s| ==> !IsWhitespace(s[k])
  }

  /** `domain` has a '.' that is neither its first nor its last character. */
  predicate HasInnerDot(domain: string)
  {
    exists p :: 0 < p < |domain| - 1 && domain[p] == '.'
  }

  /** The e-mail regular expression read as a scan: no whitespace anywhere; one '@', not
      first; after it a domain with a '.' that is neither its first nor its last character. */
  predicate EmailScan(email: string)
  {
    && NoWhitespace(email)
    && match IndexOf(email, '@')
       case None => false
       case Some(at) => 0 < at && '@' !in email[at + 1..] && HasInnerDot(email[at + 1..])
  }

  /** `validateEmail`: `emailRegex.test(email)`, computed by the scan. */
  function ValidateEmail(email: string): (r: bool)
    ensures r <==> EmailPattern(email)
  {
    EmailScanMatchesPattern(email);
    EmailScan(email)
  }

  /** The scan accepts exactly the language of the regular expression. */
  lemma EmailScanMatchesPattern(s: string)
    ensures EmailScan(s) <==> EmailPattern(s)
  {
    if EmailScan(s) {
      ValidEmailMatches(s);
    }
    if EmailPattern(s) {
      PatternIsValidEmail(s);
    }
  }

  lemma ValidEmailMatches(s: string)
    requires EmailScan(s)
    ensures EmailPattern(s)
  {
    var at := IndexOf(s, '@').value;
    var domain := s[at + 1..];
    var p :| 0 < p < |domain| - 1 && domain[p] == '.';
    var j := at + 1 + p;
    assert s[j] == domain[p];
    assert forall k :: at < k < |s| ==> s[k] != '@' by {
      forall k | at < k < |s| ensures s[k] != '@' {
        assert s[k] == domain[k - at - 1];
      }
    }
    assert Plain(s[..at]);
    assert Plain(s[at + 1..j]);
    assert Plain(s[j + 1..]);
    assert SplitsAt(s, at, j);
  }

  lemma PatternIsValidEmail(s: string)
    requires EmailPattern(s)
    ensures EmailScan(s)
  {
    var i, j :| SplitsAt(s, i, j);
    assert forall k :: 0 <= k < i ==> s[k] == s[..i][k];
    IndexOfFinds(s, '@', i);
    SplitHasNoWhitespace(s, i, j);
    SplitDomain(s, i, j);
  }

  lemma SplitHasNoWhitespace(s: string, i: int, j: int)
    requires SplitsAt(s, i, j)
    ensures NoWhitespace(s)
  {
    forall k | 0 <= k < |s|
      ensures !IsWhitespace(s[k])
    {
      if k < i {
        assert s[k] == s[..i][k];
      } else if i < k < j {
        assert s[k] == s[i + 1..j][k - i - 1];
      } else if j < k {
        assert s[k] == s[j + 1..][k - j - 1];
      }
    }
  }

  lemma SplitDomain(s: string, i: int, j: int)
    requires SplitsAt(s, i, j)
    ensures '@' !in s[i + 1..] && HasInnerDot(s[i + 1..])
  {
    var domain := s[i + 1..];
    forall k | 0 <= k < |domain|
      ensures domain[k] != '@'
    {
      var n := i + 1 + k;
      if n < j {
        assert domain[k] == s[i + 1..j][k];
      } else if j < n {
        assert domain[k] == s[j + 1..][n - j - 1];
      }
    }
    assert domain[j - i - 1] == '.';
  }

  /** How many times `c` occurs in `s`. */
  function Count(s: string, c: char): nat
  {
    if s == [] then 0 else (if s[0] == c then 1 else 0) + Count(s[1..], c)
  }

  lemma {:induction false} CountZero(s: string, c: char)
    requires c !in s
    ensures Count(s, c) == 0
  {
    if s != [] {
      CountZero(s[1..], c);
    }
  }

  lemma {:induction false} CountAppend(s: string, t: string, c: char)
    ensures Count(s + t, c) == Count(s, c) + Count(t, c)
  {
    if s == [] {
      assert s + t == t;
    } else {
      assert (s + t)[1..] == s[1..] + t;
      CountAppend(s[1..], t, c);
    }
  }

  /** An address with whitespace, or with other than exactly one '@', is refused. */
  lemma ValidEmailShape(s: string)
    ensures ValidateEmail(s) ==> Count(s, '@') == 1
    ensures ValidateEmail(s) ==> NoWhitespace(s)
  {
    if ValidateEmail(s) {
      var at := IndexOf(s, '@').value;
      assert s == s[..at] + [s[at]] + s[at + 1..];
      CountZero(s[..at], '@');
      CountZero(s[at + 1..], '@');
      CountAppend(s[..at] + [s[at]], s[at + 1..], '@');
      CountAppend(s[..at], [s[at]], '@');
    }
  }

  /** The unit tests' bad address has no '@' and is refused. */
  lemma InvalidEmailExample()
    ensures !ValidateEmail("invalid-email")
  {
    var bad := "invalid-email";
    assert forall k :: 0 <= k < |bad| ==> bad[k] != '@';
  }

  /** A well-formed address is accepted. */
  lemma ValidEmailExample()
    ensures ValidateEmail("test@test.com")
  {
    var good := "test@test.com";
    assert good[..4] == "test" && good[5..9] == "test" && good[10..] == "com";
    assert SplitsAt(good, 4, 9);
  }

  /** Some position of `p` holds a character from `lo` to `hi`. */
  predicate HasInRange(p: string, lo: char, hi: char)
  {
    exists k :: 0 <= k < |p| && lo <= p[k] <= hi
  }

  lemma HasInRangeMember(p: string, lo: char, hi: char)
    ensures HasInRange(p, lo, hi) <==> exists c :: c in p && lo <= c <= hi
  {
    if HasInRange(p, lo, hi) {
      var k :| 0 <= k < |p| && lo <= p[k] <= hi;
      assert p[k] in p;
    }
  }

  predicate HasUpper(p: string) { HasInRange(p, 'A', 'Z') }
  predicate HasLower(p: string) { HasInRange(p, 'a', 'z') }
  predicate HasDigit(p: string) { HasInRange(p, '0', '9') }

  /** JavaScript's `length` of a string: its number of UTF-16 code units, two for a character
      outside the Basic Multilingual Plane and one for any other. */
  function JsLength(s: string): (n: nat)
    ensures |s| <= n <= 2 * |s|
  {
    if s == [] then 0 else JsLength(s[..|s| - 1]) + (if s[|s| - 1] as int >= 0x1_0000 then 2 else 1)
  }

  /** A string of Basic Multilingual Plane characters has one code unit per character, and
      each character beyond that plane adds one more. */
  lemma {:induction false} JsLengthCountsAstral(s: string)
    ensures JsLength(s) == |s| + |set i | 0 <= i < |s| && s[i] as int >= 0x1_0000|
  {
    var astral := set i | 0 <= i < |s| && s[i] as int >= 0x1_0000;
    if s != [] {
      var t := s[..|s| - 1];
      var rest := set i | 0 <= i < |t| && t[i] as int >= 0x1_0000;
      JsLengthCountsAstral(t);
      assert rest == set i | 0 <= i < |s| - 1 && s[i] as int >= 0x1_0000;
      if s[|s| - 1] as int >= 0x1_0000 {
        assert astral == rest + {|s| - 1};
      } else {
        assert astral == rest;
      }
    }
  }

  /** Within the Basic Multilingual Plane, JavaScript's length is the number of characters. */
  lemma {:induction false} JsLengthBmp(s: string)
    requires forall i :: 0 <= i < |s| ==> s[i] as int < 0x1_0000
    ensures JsLength(s) == |s|
  {
    if s != [] {
      JsLengthBmp(s[..|s| - 1]);
    }
  }

  /** `validatePassword`: eight UTF-16 code units or more, with an upper-case letter, a lower-case
      letter and a digit (the special-character test is commented out in validation.ts).
      Each `/[…]/.test` holds when some character of the password is in the class. */
  function ValidatePassword(password: string): (r: bool)
    ensures r <==>
      && JsLength(password) >= 8
      && (exists c :: c in password && 'A' <= c <= 'Z')
      && (exists c :: c in password && 'a' <= c <= 'z')
      && (exists c :: c in password && '0' <= c <= '9')
  {
    HasInRangeMember(password, 'A', 'Z');
    HasInRangeMember(password, 'a', 'z');
    HasInRangeMember(password, '0', '9');
    JsLength(password) >= 8 && HasUpper(password) && HasLower(password) && HasDigit(password)
  }

  /** `getPasswordRequirements()` */
  function PasswordRequirements(): string
  {
    "Password must be " + ("at least 8 characters" + (" long and contain at least one " + ("uppercase letter"
      + (", one " + ("lowercase letter" + (", one " + ("number" + (", and one " + ("special character" + ".")))))))))
  }

  /** The requirements message names each of the five requirements. */
  lemma PasswordRequirementsMentions()
    ensures Mentions(PasswordRequirements(), "at least 8 characters")
    ensures Mentions(PasswordRequirements(), "uppercase letter")
    ensures Mentions(PasswordRequirements(), "lowercase letter")
    ensures Mentions(PasswordRequirements(), "number")
    ensures Mentions(PasswordRequirements(), "special character")
  {
    // built from the end, each step keeping the requirements already placed
    var w1, w2, w3, w4, w5 := "at least 8 characters", "uppercase letter", "lowercase letter", "number", "special character";
    var t5 := w5 + ".";
    MentionsStart(w5, ".");
    var t4 := w4 + (", and one " + t5);
    MentionsAfter(", and one ", t5, {w5});
    MentionsAfter(w4, ", and one " + t5, {w5});
    MentionsStart(w4, ", and one " + t5);
    var t3 := w3 + (", one " + t4);
    MentionsAfter(", one ", t4, {w4, w5});
    MentionsAfter(w3, ", one " + t4, {w4, w5});
    MentionsStart(w3, ", one " + t4);
    var t2 := w2 + (", one " + t3);
    MentionsAfter(", one ", t3, {w3, w4, w5});
    MentionsAfter(w2, ", one " + t3, {w3, w4, w5});
    MentionsStart(w2, ", one " + t3);
    var t1 := w1 + (" long and contain at least one " + t2);
    MentionsAfter(" long and contain at least one ", t2, {w2, w3, w4, w5});
    MentionsAfter(w1, " long and contain at least one " + t2, {w2, w3, w4, w5});
    MentionsStart(w1, " long and contain at least one " + t2);
    MentionsAfter("Password must be ", t1, {w1, w2, w3, w4, w5});
    assert PasswordRequirements() == "Password must be " + t1;
  }

  /** A text that starts with `word` mentions it. */
  lemma MentionsStart(word: string, rest: string)
    ensures Mentions(word + rest, word)
  {
    assert (word + rest)[0..|word|] == word;
    assert OccursAt(word + rest, word, 0);
  }

  /** Whatever `text` mentions, `before + text` mentions too. */
  lemma MentionsAfter(before: string, text: string, words: set<string>)
    requires forall w <- words :: Mentions(text, w)
    ensures forall w <- words :: Mentions(before + text, w)
  {
    forall w <- words
      ensures Mentions(before + text, w)
    {
      var i :| OccursAt(text, w, i);
      assert (before + text)[|before| + i..|before| + i + |w|] == text[i..i + |w|];
      assert OccursAt(before + text, w, |before| + i);
    }
  }

  /** The characters of the disabled special-character class `[!@#$%^&*(),.?":{}|<>]`. */
  predicate IsSpecial(c: char)
  {
    c in "!@#$%^&*(),.?\":{}|<>"
  }

  /** `word` occurs in `text` at position `i`. */
  ghost predicate OccursAt(text: string, word: string, i: int)
  {
    0 <= i <= |text| - |word| && text[i..i + |word|] == word
  }

  /** `word` occurs in `text`. */
  ghost predicate Mentions(text: string, word: string)
  {
    exists i :: OccursAt(text, word, i)
  }

  /** No password shorter than eight code units passes, whatever it contains. */
  lemma ShortPasswordRefused(password: string)
    requires JsLength(password) < 8
    ensures !ValidatePassword(password)
  {
  }

  /** Length is counted in UTF-16 code units: seven characters, one of them outside the Basic
      Multilingual Plane, make eight units and pass. */
  lemma AstralPasswordAccepted()
    ensures |"Aa1bcd\U{1F600}"| == 7 && JsLength("Aa1bcd\U{1F600}") == 8
    ensures ValidatePassword("Aa1bcd\U{1F600}")
  {
    var p := "Aa1bcd\U{1F600}";
    assert p[..6] == "Aa1bcd";
    JsLengthBmp("Aa1bcd");
    assert HasUpper(p) by { assert 'A' <= p[0] <= 'Z'; }
    assert HasLower(p) by { assert 'a' <= p[1] <= 'z'; }
    assert HasDigit(p) by { assert '0' <= p[2] <= '9'; }
  }

  /** The requirements message asks for a special character that `validatePassword` does not
      check: a password without one passes. */
  lemma RequirementsOverstatePolicy()
    ensures Mentions(PasswordRequirements(), "special character")
    ensures ValidatePassword("Password1")
    ensures forall k :: 0 <= k < |"Password1"| ==> !IsSpecial("Password1"[k])
  {
    PasswordRequirementsMentions();
    var p := "Password1";
    assert HasUpper(p) by { assert 'A' <= p[0] <= 'Z'; }
    assert HasLower(p) by { assert 'a' <= p[1] <= 'z'; }
    assert HasDigit(p) by { assert '0' <= p[8] <= '9'; }
    forall k | 0 <= k < |p|
      ensures !IsSpecial(p[k])
    {
    }
  }

  /** `validateConfirmPassword`: strict equality, the same length and the same character at
      every position. */
  function ValidateConfirmPassword(password: string, confirmPassword: string): (r: bool)
    ensures r <==>
      && |password| == |confirmPassword|
      && forall i :: 0 <= i < |password| ==> password[i] == confirmPassword[i]
  {
    password == confirmPassword
  }

  /** Confirmation is an equivalence: reflexive, symmetric and transitive. */
  lemma ConfirmIsEquivalence(a: string, b: string, c: string)
    ensures ValidateConfirmPassword(a, a)
    ensures ValidateConfirmPassword(a, b) <==> ValidateConfirmPassword(b, a)
    ensures ValidateConfirmPassword(a, b) && ValidateConfirmPassword(b, c) ==> ValidateConfirmPassword(a, c)
  {
  }
}
