/** The form validators of `lib/utils/validation.ts`: the Chilean RUT
    ("rol único tributario") check digit, the e-mail and phone patterns, and
    the generic non-empty check. */
module Validation {
  import opened Seqs
  import opened Text

  // ---------------------------------------------------------------- RUT

  /** A JavaScript number as far as the RUT sum needs it: an integer, or the
      NaN that `parseInt` returns for a character that is not a digit. */
  datatype JsNumber = Finite(n: int) | NaN

  function Add(a: JsNumber, b: JsNumber): JsNumber
  {
    if a.Finite? && b.Finite? then Finite(a.n + b.n) else NaN
  }

  function Mul(a: JsNumber, k: int): JsNumber
  {
    if a.Finite? then Finite(a.n * k) else NaN
  }

  /** `parseInt` of a one-character string. */
  function ParseDigit(c: char): (r: JsNumber)
    ensures r.Finite? <==> IsDigit(c)
    ensures r.Finite? ==> 0 <= r.n <= 9 && DigitChar(r.n) == c
  {
    if IsDigit(c) then Finite(c as int - '0' as int) else NaN
  }

  /** The multiplier of the `k`-th body digit counted from the right. */
  function Multiplier(k: nat): (m: int)
    ensures 2 <= m <= 7
  {
    2 + k % 6
  }

  /** The source's update `multiplier === 7 ? 2 : multiplier + 1` walks the
      cycle 2, 3, 4, 5, 6, 7, 2, ... */
  lemma MultiplierStep(k: nat)
    ensures Multiplier(k + 1) == if Multiplier(k) == 7 then 2 else Multiplier(k) + 1
  {
  }

  /** The weighted digit sum of a body: its last digit weighs 2, the one
      before 3, and so on through 7 and back to 2; any non-digit makes the
      sum NaN. */
  function WeightedSum(body: string): JsNumber
  {
    if body == [] then Finite(0)
    else Add(WeightedSum(body[1..]), Mul(ParseDigit(body[0]), Multiplier(|body| - 1)))
  }

  /** `a % b` on JavaScript numbers truncates toward zero. */
  function JsRem(a: int, b: int): (r: int)
    requires b > 0
    ensures a >= 0 ==> r == a % b
  {
    if a >= 0 then a % b else -((-a) % b)
  }

  /** The verifier the body calls for: 11 − (sum mod 11), written '0' for 11
      and 'K' for 10; a NaN sum prints as "NaN". */
  function CheckDigitOf(sum: JsNumber): string
  {
    if sum.NaN? then "NaN"
    else
      var expected := 11 - JsRem(sum.n, 11);
      if expected == 11 then "0"
      else if expected == 10 then "K"
      else IntToString(expected)
  }

  /** Upper-casing of one character, for the letters of ASCII. */
  function AsciiUpper(c: char): (u: char)
    ensures 'a' <= c <= 'z' ==> u as int == c as int - 32
    ensures !('a' <= c <= 'z') ==> u == c
  {
    if 'a' <= c <= 'z' then (c as int - 32) as char else c
  }

  /** The upper-cased character is a digit or 'K' exactly for a digit, 'K'
      and 'k', and only 'k' changes on the way. */
  lemma UpperToRutDigit(c: char)
    ensures ('0' <= AsciiUpper(c) <= '9' || AsciiUpper(c) == 'K') <==> ('0' <= c <= '9' || c == 'K' || c == 'k')
    ensures ('0' <= AsciiUpper(c) <= '9' || AsciiUpper(c) == 'K') && AsciiUpper(c) != c ==> c == 'k'
  {
  }

  predicate IsRutSeparator(c: char)
  {
    c == '.' || c == '-'
  }

  /** `rut.replace(/[.-]/g, '')`. */
  function CleanRut(rut: string): string
  {
    Filter(rut, c => !IsRutSeparator(c))
  }

  /** When a RUT is accepted: once cleaned it has 8 or 9 characters, and its
      last character, upper-cased, is the verifier its body calls for. */
  predicate RutAccepts(rut: string)
  {
    CleanRutAccepted(CleanRut(rut))
  }

  /** The verdict on a RUT once '.' and '-' have been removed. */
  predicate CleanRutAccepted(clean: string)
  {
    8 <= |clean| <= 9 &&
    [AsciiUpper(clean[|clean| - 1])] == CheckDigitOf(WeightedSum(clean[..|clean| - 1]))
  }

  /** A RUT is accepted when it cleans to a body of 7 or 8 characters and a
      verifier that upper-cases to the one the body calls for. */
  lemma RutAcceptsByParts(rut: string, body: string, dv: char)
    requires CleanRut(rut) == body + [dv] && 7 <= |body| <= 8
    requires [AsciiUpper(dv)] == CheckDigitOf(WeightedSum(body))
    ensures RutAccepts(rut)
  {
    assert CleanRut(rut)[..|body|] == body;
  }

  /** `isValidRut`: clean, check the length, upper-case the verifier and
      compare it with the one the body's weighted sum calls for. */
  method IsValidRut(rut: string) returns (valid: bool)
    ensures valid == RutAccepts(rut)
  {
    var clean := CleanRut(rut);
    if |clean| < 8 || |clean| > 9 {
      return false;
    }
    var body := clean[..|clean| - 1];
    var dv := [AsciiUpper(clean[|clean| - 1])];
    var sum := RutSum(body);
    valid := dv == CheckDigitOf(sum);
  }

  /** The `for` loop over the body from its last digit: `sum` gathers each
      digit times the cycling multiplier. */
  method RutSum(body: string) returns (sum: JsNumber)
    ensures sum == WeightedSum(body)
  {
    sum := Finite(0);
    var multiplier := 2;
    var i := |body| - 1;
    assert body[i + 1..] == [];
    while i >= 0
      invariant -1 <= i < |body|
      invariant sum == WeightedSum(body[i + 1..])
      invariant multiplier == Multiplier(|body| - 1 - i)
      decreases i + 1
    {
      RutLoopStep(body, i, sum, multiplier);
      sum := Add(sum, Mul(ParseDigit(body[i]), multiplier));
      multiplier := if multiplier == 7 then 2 else multiplier + 1;
      i := i - 1;
    }
    assert body[i + 1..] == body;
  }

  /** One step of the loop: adding `body[i]` at its multiplier gives the sum
      of the suffix from `i`, and the updated multiplier is the next one. */
  lemma RutLoopStep(body: string, i: nat, sum: JsNumber, multiplier: int)
    requires i < |body|
    requires sum == WeightedSum(body[i + 1..]) && multiplier == Multiplier(|body| - 1 - i)
    ensures Add(sum, Mul(ParseDigit(body[i]), multiplier)) == WeightedSum(body[i..])
    ensures (if multiplier == 7 then 2 else multiplier + 1) == Multiplier(|body| - i)
  {
    var w := body[i..];
    assert w[0] == body[i] && w[1..] == body[i + 1..] && |w| - 1 == |body| - 1 - i;
    MultiplierStep(|body| - 1 - i);
  }

  /** A RUT whose cleaned length is not 8 or 9 is rejected. */
  lemma RutLengthBound(rut: string)
    requires |CleanRut(rut)| < 8 || |CleanRut(rut)| > 9
    ensures !RutAccepts(rut)
  {
  }

  /** Cleaning removes a '.' or '-' wherever it stands. */
  lemma CleanDropsSeparator(a: string, b: string, sep: char)
    requires IsRutSeparator(sep)
    ensures CleanRut(a + [sep] + b) == CleanRut(a) + CleanRut(b)
  {
    var p := c => !IsRutSeparator(c);
    FilterConcat(a + [sep], b, p);
    FilterConcat(a, [sep], p);
    assert Filter([sep], p) == [];
  }

  /** Putting a '.' or '-' anywhere into a RUT does not change the verdict. */
  lemma RutSeparatorInvariance(a: string, b: string, sep: char)
    requires IsRutSeparator(sep)
    ensures RutAccepts(a + [sep] + b) == RutAccepts(a + b)
  {
    CleanDropsSeparator(a, b, sep);
    FilterConcat(a, b, c => !IsRutSeparator(c));
    assert CleanRut(a + [sep] + b) == CleanRut(a + b);
  }

  /** The sum of a body of digits is a number, never NaN, and not negative. */
  lemma {:induction false} WeightedSumOfDigits(body: string)
    requires forall i :: 0 <= i < |body| ==> IsDigit(body[i])
    ensures WeightedSum(body).Finite? && WeightedSum(body).n >= 0
  {
    if body != [] {
      assert forall i :: 0 <= i < |body[1..]| ==> body[1..][i] == body[i + 1];
      WeightedSumOfDigits(body[1..]);
      var d, m := ParseDigit(body[0]), Multiplier(|body| - 1);
      assert IsDigit(body[0]);
      NonNegativeProduct(d.n, m);
    }
  }

  lemma NonNegativeProduct(a: int, b: int)
    requires a >= 0 && b >= 0
    ensures a * b >= 0
  {
  }

  /** A character that is not a digit anywhere in the body makes the sum NaN. */
  lemma {:induction false} WeightedSumNaN(body: string, k: nat)
    requires k < |body| && !IsDigit(body[k])
    ensures WeightedSum(body).NaN?
  {
    if k > 0 {
      WeightedSumNaN(body[1..], k - 1);
    }
  }

  /** For a number that is not negative the verifier is one character: a digit
      or 'K'. */
  lemma CheckDigitIsOneCharacter(sum: int)
    requires sum >= 0
    ensures |CheckDigitOf(Finite(sum))| == 1
    ensures var v := CheckDigitOf(Finite(sum))[0]; IsDigit(v) || v == 'K'
  {
    var expected := 11 - sum % 11;
    if expected < 10 {
      assert IntToString(expected) == [DigitChar(expected)];
    }
  }

  lemma CleanOfClean(rut: string)
    requires forall i :: 0 <= i < |rut| ==> !IsRutSeparator(rut[i])
    ensures CleanRut(rut) == rut
  {
    FilterAll(rut, c => !IsRutSeparator(c));
  }

  /** A cleaned RUT with a body of digits has exactly one verifier up to case:
      the one the body calls for is accepted, and any accepted verifier
      upper-cases to it. */
  lemma UniqueCheckDigit(body: string, v: char)
    requires 7 <= |body| <= 8
    requires forall i :: 0 <= i < |body| ==> IsDigit(body[i])
    requires !IsRutSeparator(v)
    ensures var expected := CheckDigitOf(WeightedSum(body));
      |expected| == 1 && RutAccepts(body + expected)
      && (RutAccepts(body + [v]) <==> AsciiUpper(v) == expected[0])
  {
    WeightedSumOfDigits(body);
    var expected := CheckDigitOf(WeightedSum(body));
    CheckDigitIsOneCharacter(WeightedSum(body).n);
    CleanOfClean(body + expected);
    CleanOfClean(body + [v]);
    assert (body + expected)[..|body|] == body;
    assert (body + [v])[..|body|] == body;
  }

  /** 'k' and 'K' are the same verifier. */
  lemma LowercaseK(body: string)
    requires forall i :: 0 <= i < |body| ==> !IsRutSeparator(body[i])
    ensures RutAccepts(body + ['k']) == RutAccepts(body + ['K'])
  {
    CleanOfClean(body + ['k']);
    CleanOfClean(body + ['K']);
    assert (body + ['k'])[..|body|] == body;
    assert (body + ['K'])[..|body|] == body;
  }

  /** A non-digit in the cleaned body rejects the RUT, whatever the verifier. */
  lemma NonDigitBodyRejects(rut: string, k: nat)
    requires var clean := CleanRut(rut); 1 <= |clean| && k < |clean| - 1 && !IsDigit(clean[k])
    ensures !RutAccepts(rut)
  {
    var clean := CleanRut(rut);
    if 8 <= |clean| <= 9 {
      WeightedSumNaN(clean[..|clean| - 1], k);
    }
  }

  // ---------------------------------------------------------------- e-mail

  /** A non-empty run of characters that are neither white space nor '@':
      the class `[^\s@]+`. */
  predicate EmailPart(t: string)
  {
    |t| > 0 && forall k :: 0 <= k < |t| ==> !IsJsWhitespace(t[k]) && t[k] != '@'
  }

  /** `/^[^\s@]+@[^\s@]+\.[^\s@]+$/.test(email)`: the string splits as
      part '@' part '.' part. */
  predicate IsValidEmail(email: string)
  {
    exists i, j | 0 <= i < j < |email| ::
      email[i] == '@' && email[j] == '.' &&
      EmailPart(email[..i]) && EmailPart(email[i + 1..j]) && EmailPart(email[j + 1..])
  }

  function CountChar(s: string, c: char): (n: nat)
    ensures n <= |s|
  {
    if s == [] then 0 else (if s[0] == c then 1 else 0) + CountChar(s[1..], c)
  }

  lemma {:induction false} CountCharZero(s: string, c: char)
    ensures CountChar(s, c) == 0 <==> forall k :: 0 <= k < |s| ==> s[k] != c
  {
    if s != [] {
      CountCharZero(s[1..], c);
      assert forall k :: 0 <= k < |s[1..]| ==> s[1..][k] == s[k + 1];
    }
  }

  lemma {:induction false} CountCharConcat(a: string, b: string, c: char)
    ensures CountChar(a + b, c) == CountChar(a, c) + CountChar(b, c)
  {
    if a == [] {
      assert a + b == b;
    } else {
      assert (a + b)[1..] == a[1..] + b;
      CountCharConcat(a[1..], b, c);
    }
  }

  /** The e-mail rule in words: no white space, exactly one '@' with something
      before it, and after it a '.' with text on both of its sides. */
  predicate EmailRule(email: string)
  {
    (forall k :: 0 <= k < |email| ==> !IsJsWhitespace(email[k]))
    && CountChar(email, '@') == 1
    && exists i, j | 0 <= i < j < |email| ::
         email[i] == '@' && 0 < i && i + 1 < j < |email| - 1 && email[j] == '.'
  }

  lemma EmailSplitCount(email: string, i: int)
    requires 0 <= i < |email| && email[i] == '@'
    ensures CountChar(email, '@') == CountChar(email[..i], '@') + 1 + CountChar(email[i + 1..], '@')
  {
    assert email == email[..i] + [email[i]] + email[i + 1..];
    CountCharConcat(email[..i] + [email[i]], email[i + 1..], '@');
    CountCharConcat(email[..i], [email[i]], '@');
  }

  /** A range of characters without white space or '@' is a part. */
  lemma PartOfRange(s: string, a: int, b: int)
    requires 0 <= a < b <= |s|
    requires forall k :: a <= k < b ==> !IsJsWhitespace(s[k]) && s[k] != '@'
    ensures EmailPart(s[a..b])
  {
    forall k | 0 <= k < b - a ensures !IsJsWhitespace(s[a..b][k]) && s[a..b][k] != '@' {
      assert s[a..b][k] == s[a + k];
    }
  }

  /** A part holds neither white space nor '@'. */
  lemma RangeOfPart(s: string, a: int, b: int)
    requires 0 <= a <= b <= |s|
    requires EmailPart(s[a..b])
    ensures forall k :: a <= k < b ==> !IsJsWhitespace(s[k]) && s[k] != '@'
  {
    forall k | a <= k < b ensures !IsJsWhitespace(s[k]) && s[k] != '@' {
      assert s[k] == s[a..b][k - a];
    }
  }

  /** The three parts around '@' and '.' make up the whole address. */
  ghost predicate EmailSplitAt(email: string, i: int, j: int)
  {
    0 <= i < j < |email| && email[i] == '@' && email[j] == '.' &&
    EmailPart(email[..i]) && EmailPart(email[i + 1..j]) && EmailPart(email[j + 1..])
  }

  lemma SplitHasNoWhitespace(email: string, i: int, j: int)
    requires EmailSplitAt(email, i, j)
    ensures forall k :: 0 <= k < |email| ==> !IsJsWhitespace(email[k])
  {
    assert email[..i] == email[0..i];
    RangeOfPart(email, 0, i);
    RangeOfPart(email, i + 1, j);
    RangeOfPart(email, j + 1, |email|);
  }

  lemma SplitHasOneAt(email: string, i: int, j: int)
    requires EmailSplitAt(email, i, j)
    ensures CountChar(email, '@') == 1
  {
    EmailSplitCount(email, i);
    PartHasNoAt(email[..i]);
    var domain, dot, tld := email[i + 1..j], [email[j]], email[j + 1..];
    SplitAround(email, i + 1, j);
    CountCharConcat(domain + dot, tld, '@');
    CountCharConcat(domain, dot, '@');
    assert CountChar(dot, '@') == 0;
    PartHasNoAt(domain);
    PartHasNoAt(tld);
  }

  lemma SplitAround(s: string, a: int, b: int)
    requires 0 <= a <= b < |s|
    ensures s[a..] == s[a..b] + [s[b]] + s[b + 1..]
  {
    assert s[a..] == s[a..b] + s[b..];
    assert s[b..] == [s[b]] + s[b + 1..];
  }

  lemma PartHasNoAt(t: string)
    requires EmailPart(t)
    ensures CountChar(t, '@') == 0
  {
    CountCharZero(t, '@');
  }

  lemma EmailPatternToRule(email: string)
    requires IsValidEmail(email)
    ensures EmailRule(email)
  {
    var i, j :| 0 <= i < j < |email| && email[i] == '@' && email[j] == '.' &&
      EmailPart(email[..i]) && EmailPart(email[i + 1..j]) && EmailPart(email[j + 1..]);
    assert EmailSplitAt(email, i, j);
    SplitHasNoWhitespace(email, i, j);
    SplitHasOneAt(email, i, j);
    assert 0 < i && i + 1 < j < |email| - 1;
  }

  lemma EmailRuleToPattern(email: string)
    requires EmailRule(email)
    ensures IsValidEmail(email)
  {
    var i, j :| 0 <= i < j < |email| &&
      email[i] == '@' && 0 < i && i + 1 < j < |email| - 1 && email[j] == '.';
    EmailSplitCount(email, i);
    CountCharZero(email[..i], '@');
    CountCharZero(email[i + 1..], '@');
    forall k | 0 <= k < |email| && k != i ensures email[k] != '@' {
      if k < i {
        assert email[k] == email[..i][k];
      } else {
        assert email[k] == email[i + 1..][k - i - 1];
      }
    }
    PartOfRange(email, 0, i);
    assert email[..i] == email[0..i];
    PartOfRange(email, i + 1, j);
    PartOfRange(email, j + 1, |email|);
  }

  /** The pattern and the rule in words accept the same strings. */
  lemma EmailCharacterisation(email: string)
    ensures IsValidEmail(email) <==> EmailRule(email)
  {
    if IsValidEmail(email) {
      EmailPatternToRule(email);
    }
    if EmailRule(email) {
      EmailRuleToPattern(email);
    }
  }

  // ---------------------------------------------------------------- phone

  predicate IsPhoneSeparator(c: char)
  {
    c == ' ' || c == '-'
  }

  predicate AllDigits(s: string)
  {
    forall k :: 0 <= k < |s| ==> IsDigit(s[k])
  }

  /** `[ -]?`: drops one leading space or hyphen. */
  function SkipSeparator(s: string): (r: string)
    ensures |r| <= |s|
  {
    if |s| > 0 && IsPhoneSeparator(s[0]) then s[1..] else s
  }

  /** `(\+?56)?`: drops a leading "+56" or "56". */
  function SkipCountryCode(s: string): string
  {
    if |s| >= 3 && s[..3] == "+56" then s[3..]
    else if |s| >= 2 && s[..2] == "56" then s[2..]
    else s
  }

  /** `/^(\+?56)?[ -]?9[ -]?[0-9]{4}[ -]?[0-9]{4}$/.test(phone)`, read left to
      right: every optional piece is taken when present, which is the only
      way the pattern can go on matching. */
  predicate IsValidPhone(phone: string)
  {
    NineOnward(SkipSeparator(SkipCountryCode(phone)))
  }

  /** `9[ -]?[0-9]{4}[ -]?[0-9]{4}$` */
  predicate NineOnward(s: string)
  {
    |s| >= 1 && s[0] == '9' && FirstGroupOnward(SkipSeparator(s[1..]))
  }

  /** `[0-9]{4}[ -]?[0-9]{4}$` */
  predicate FirstGroupOnward(s: string)
  {
    |s| >= 4 && AllDigits(s[..4]) && LastGroup(SkipSeparator(s[4..]))
  }

  /** `[0-9]{4}$` */
  predicate LastGroup(s: string)
  {
    |s| == 4 && AllDigits(s)
  }

  function CountryCode(k: int): string
  {
    if k == 1 then "56" else if k == 2 then "+56" else ""
  }

  function Separator(k: int): string
  {
    if k == 1 then " " else if k == 2 then "-" else ""
  }

  /** The strings the pattern describes: a country code, a separator, a 9, a
      separator, four digits, a separator and four digits, each optional
      piece chosen independently. */
  predicate PhoneShape(phone: string, code: int, s1: int, s2: int, s3: int, first: string, second: string)
  {
    |first| == 4 && AllDigits(first) && |second| == 4 && AllDigits(second) &&
    phone == CountryCode(code) + (Separator(s1) + ("9" + (Separator(s2) + (first + (Separator(s3) + second)))))
  }

  lemma SkipSeparatorOf(k: int, rest: string)
    requires |rest| > 0 && !IsPhoneSeparator(rest[0])
    ensures SkipSeparator(Separator(k) + rest) == rest
  {
    if k == 1 || k == 2 {
      assert (Separator(k) + rest)[1..] == rest;
    } else {
      assert Separator(k) + rest == rest;
    }
  }

  lemma SkipCountryCodeOf(k: int, rest: string)
    requires |rest| > 0 && (IsPhoneSeparator(rest[0]) || rest[0] == '9')
    ensures SkipCountryCode(CountryCode(k) + rest) == rest
  {
    var s := CountryCode(k) + rest;
    if k == 2 {
      assert s[..3] == "+56" && s[3..] == rest;
    } else if k == 1 {
      assert s[..2] == "56" && s[2..] == rest;
      assert s[0] == '5';
    } else {
      assert s == rest;
    }
  }

  lemma FirstGroupOnwardOf(first: string, s3: int, second: string)
    requires |first| == 4 && AllDigits(first) && |second| == 4 && AllDigits(second)
    ensures FirstGroupOnward(first + (Separator(s3) + second))
  {
    var t := first + (Separator(s3) + second);
    assert t[..4] == first && t[4..] == Separator(s3) + second;
    assert IsDigit(second[0]);
    SkipSeparatorOf(s3, second);
  }

  lemma NineOnwardOf(s2: int, first: string, s3: int, second: string)
    requires |first| == 4 && AllDigits(first) && |second| == 4 && AllDigits(second)
    ensures NineOnward("9" + (Separator(s2) + (first + (Separator(s3) + second))))
  {
    var tail := first + (Separator(s3) + second);
    assert ("9" + (Separator(s2) + tail))[1..] == Separator(s2) + tail;
    assert IsDigit(first[0]);
    SkipSeparatorOf(s2, tail);
    FirstGroupOnwardOf(first, s3, second);
  }

  /** Every string of the pattern's shape passes the left-to-right reading. */
  lemma PhoneShapeAccepted(phone: string, code: int, s1: int, s2: int, s3: int, first: string, second: string)
    requires PhoneShape(phone, code, s1, s2, s3, first, second)
    ensures IsValidPhone(phone)
  {
    var nine := "9" + (Separator(s2) + (first + (Separator(s3) + second)));
    SkipCountryCodeOf(code, Separator(s1) + nine);
    SkipSeparatorOf(s1, nine);
    NineOnwardOf(s2, first, s3, second);
  }

  /** Which separator the reading took, as a choice index. */
  function SeparatorChoice(s: string): int
  {
    if |s| > 0 && s[0] == ' ' then 1 else if |s| > 0 && s[0] == '-' then 2 else 0
  }

  lemma SkipSeparatorSplit(s: string)
    ensures s == Separator(SeparatorChoice(s)) + SkipSeparator(s)
  {
    if SeparatorChoice(s) != 0 {
      assert s == [s[0]] + s[1..];
    }
  }

  /** Which country code the reading took, as a choice index. */
  function CountryCodeChoice(s: string): int
  {
    if |s| >= 3 && s[..3] == "+56" then 2 else if |s| >= 2 && s[..2] == "56" then 1 else 0
  }

  lemma SkipCountryCodeSplit(s: string)
    ensures s == CountryCode(CountryCodeChoice(s)) + SkipCountryCode(s)
  {
    if CountryCodeChoice(s) == 2 {
      assert s == s[..3] + s[3..];
    } else if CountryCodeChoice(s) == 1 {
      assert s == s[..2] + s[2..];
    }
  }

  lemma FirstGroupOnwardSplit(s: string)
    requires FirstGroupOnward(s)
    ensures s == s[..4] + (Separator(SeparatorChoice(s[4..])) + SkipSeparator(s[4..]))
  {
    SkipSeparatorSplit(s[4..]);
    assert s == s[..4] + s[4..];
  }

  lemma NineOnwardSplit(s: string)
    requires NineOnward(s)
    ensures var t := SkipSeparator(s[1..]);
      s == "9" + (Separator(SeparatorChoice(s[1..])) + t) && FirstGroupOnward(t)
  {
    SkipSeparatorSplit(s[1..]);
    assert s == [s[0]] + s[1..];
  }

  /** Every string the reading accepts has the pattern's shape. */
  lemma PhoneAcceptedHasShape(phone: string)
    requires IsValidPhone(phone)
    ensures exists code, s1, s2, s3, first, second ::
      PhoneShape(phone, code, s1, s2, s3, first, second)
  {
    var r0 := SkipCountryCode(phone);
    var nine := SkipSeparator(r0);
    var group := SkipSeparator(nine[1..]);
    var last := SkipSeparator(group[4..]);
    SkipCountryCodeSplit(phone);
    SkipSeparatorSplit(r0);
    NineOnwardSplit(nine);
    FirstGroupOnwardSplit(group);
    var code, s1, s2, s3 := CountryCodeChoice(phone), SeparatorChoice(r0),
      SeparatorChoice(nine[1..]), SeparatorChoice(group[4..]);
    assert PhoneShape(phone, code, s1, s2, s3, group[..4], last);
  }

  /** The left-to-right reading accepts exactly the strings of the pattern. */
  lemma PhoneCharacterisation(phone: string)
    ensures IsValidPhone(phone) <==>
      exists code, s1, s2, s3, first, second :: PhoneShape(phone, code, s1, s2, s3, first, second)
  {
    if IsValidPhone(phone) {
      PhoneAcceptedHasShape(phone);
    } else if exists code, s1, s2, s3, first, second :: PhoneShape(phone, code, s1, s2, s3, first, second) {
      var code, s1, s2, s3, first, second :| PhoneShape(phone, code, s1, s2, s3, first, second);
      PhoneShapeAccepted(phone, code, s1, s2, s3, first, second);
    }
  }

  // ---------------------------------------------------------------- isNotEmpty

  /** The JavaScript values `isNotEmpty` distinguishes. An object is known by
      its own enumerable keys. */
  datatype JsValue =
    | Null
    | Undefined
    | Str(s: string)
    | Arr(elements: seq<JsValue>)
    | Obj(keys: seq<string>)
    | Num(n: int)
    | Bool(b: bool)
    | Func

  /** `isNotEmpty`: null and undefined are empty, strings are judged after
      trimming, arrays and objects by their size, and everything else is
      not empty. */
  function IsNotEmpty(value: JsValue): (r: bool)
    ensures value.Null? || value.Undefined? ==> !r
    ensures value.Str? ==> (r <==> exists k :: 0 <= k < |value.s| && !IsJsWhitespace(value.s[k]))
    ensures value.Arr? ==> (r <==> value.elements != [])
    ensures value.Obj? ==> (r <==> value.keys != [])
    ensures value.Num? || value.Bool? || value.Func? ==> r
  {
    match value
    case Null => false
    case Undefined => false
    case Str(s) => TrimEmptyIff(s); |Trim(s)| > 0
    case Arr(elements) => |elements| > 0
    case Obj(keys) => |keys| > 0
    case _ => true
  }

  /** Zero, false and the blank-free string are not empty; a string of white
      space is. */
  lemma IsNotEmptyExamples()
    ensures IsNotEmpty(Num(0)) && IsNotEmpty(Bool(false)) && IsNotEmpty(Str("a"))
    ensures !IsNotEmpty(Str(" \t\n")) && !IsNotEmpty(Arr([])) && !IsNotEmpty(Obj([]))
  {
    assert !IsJsWhitespace('a');
  }

  /** White space around a string does not change whether it is empty:
      `trim` removes exactly that. */
  lemma PaddingKeepsEmptiness(pad: string, s: string)
    requires forall k :: 0 <= k < |pad| ==> IsJsWhitespace(pad[k])
    ensures IsNotEmpty(Str(pad + s + pad)) <==> IsNotEmpty(Str(s))
  {
    PaddedWitness(pad, s, c => !IsJsWhitespace(c));
  }

  /** A character satisfying `p` occurs in `pad + s + pad` iff it occurs in
      `s`, when no character of `pad` satisfies `p`. */
  lemma PaddedWitness(pad: string, s: string, p: char -> bool)
    requires forall k :: 0 <= k < |pad| ==> !p(pad[k])
    ensures (exists j :: 0 <= j < |pad + s + pad| && p((pad + s + pad)[j])) <==> (exists k :: 0 <= k < |s| && p(s[k]))
  {
    var t := pad + s + pad;
    if exists k :: 0 <= k < |s| && p(s[k]) {
      var k :| 0 <= k < |s| && p(s[k]);
      assert t[|pad| + k] == s[k];
    }
    if exists j :: 0 <= j < |t| && p(t[j]) {
      var j :| 0 <= j < |t| && p(t[j]);
      assert forall i :: 0 <= i < |pad| ==> t[i] == pad[i];
      assert forall i :: |pad| + |s| <= i < |t| ==> t[i] == pad[i - |pad| - |s|];
      assert |pad| <= j < |pad| + |s|;
      assert t[j] == s[j - |pad|];
    }
  }
}
