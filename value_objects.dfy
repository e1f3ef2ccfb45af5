/**
 * Immutable, self-validating value objects: NIT, Email, Phone, ProductCode
 * and Quantity. Each Python dataclass is a datatype; the subset type of the
 * same name holds only the values its constructor accepts, and `MakeX` is the
 * constructor, returning the ValidationError it would raise instead.
 */
module ValueObjects {
  import opened Text
  import opened Exceptions

  // ---------------------------------------------------------------- NIT

  predicate IsNitChar(c: char) { IsAsciiDigit(c) || c == '-' }

  /** `[\d\-]+` matched against the whole string. */
  predicate NitPattern(s: string) { |s| > 0 && All(s, IsNitChar) }

  /** The texts a NIT may hold: at least five characters, each a digit or '-'. */
  predicate IsNitText(s: string) {
    |s| >= 5 && forall i :: 0 <= i < |s| ==> IsNitChar(s[i])
  }

  datatype NitValue = Nit(value: string)

  type Nit = n: NitValue | IsNitText(n.value) witness Nit("00000")

  /**
   * `NIT(s)`: the checks run in the order empty, too short, bad characters.
   * It succeeds exactly on the NIT texts, and `str()` of the result is `s`.
   */
  function MakeNit(s: string): (r: Result<Nit>)
    ensures r.Ok? <==> IsNitText(s)
    ensures r.Ok? ==> r.value.value == s
    ensures s == [] ==> r == Err(ValidationError(NitEmpty))
    ensures 0 < |s| < 5 ==> r == Err(ValidationError(NitTooShort))
    ensures |s| >= 5 && r.Err? ==> r == Err(ValidationError(NitFormat))
  {
    if |s| == 0 then Err(ValidationError(NitEmpty))
    else if |s| < 5 then Err(ValidationError(NitTooShort))
    else if !NitPattern(s) then Err(ValidationError(NitFormat))
    else Ok(Nit(s))
  }

  /**
   * `NIT(s)` as written: the format test is `re.match(r'^[\d\-]+$', s)`,
   * whose `$` also matches before a final newline.
   */
  function MakeNitAsWritten(s: string): (r: Result<NitValue>)
    ensures r.Ok? ==> r.value.value == s && |s| >= 5
  {
    if |s| == 0 then Err(ValidationError(NitEmpty))
    else if |s| < 5 then Err(ValidationError(NitTooShort))
    else if !DollarMatch(s, NitPattern) then Err(ValidationError(NitFormat))
    else Ok(Nit(s))
  }

  /** The written check accepts a four-digit NIT followed by a newline; the intended one does not. */
  lemma NitAsWrittenAcceptsNewline()
    ensures MakeNitAsWritten("1234\n").Ok?
    ensures MakeNit("1234\n") == Err(ValidationError(NitFormat))
  {
    var s := "1234\n";
    assert s[..|s| - 1] == "1234";
    assert NitPattern("1234");
    assert !IsNitChar(s[4]);
  }

  /** The written check accepts exactly the intended NITs and those texts followed by one newline. */
  lemma NitAsWrittenDiffers(s: string)
    ensures MakeNitAsWritten(s).Ok?
            <==> MakeNit(s).Ok? || (|s| >= 5 && s[|s| - 1] == '\n' && All(s[..|s| - 1], IsNitChar))
  {
  }

  // -------------------------------------------------------------- Email

  predicate IsLocalChar(c: char) {
    IsAsciiLetter(c) || IsAsciiDigit(c) || c == '.' || c == '_' || c == '%' || c == '+' || c == '-'
  }

  predicate IsHostChar(c: char) { IsAsciiLetter(c) || IsAsciiDigit(c) || c == '.' || c == '-' }

  predicate NotAt(c: char) { c != '@' }

  predicate NotDot(c: char) { c != '.' }

  /**
   * `^[a-zA-Z0-9._%+-]+@[a-zA-Z0-9.-]+\.[a-zA-Z]{2,}$` matched against the
   * whole of `s`. No class admits '@' except as the separator and the last
   * class admits no '.', so the separator is the first '@' and the dot before
   * the top-level domain is the last '.'.
   */
  predicate EmailPattern(s: string) {
    var at := LeadingCount(s, NotAt);
    var t := TrailingCount(s, NotDot);
    && 0 < at && at + 2 <= |s| - t - 1 && 2 <= t
    && All(s[..at], IsLocalChar)
    && All(s[at + 1..|s| - t - 1], IsHostChar)
    && All(s[|s| - t..], IsAsciiLetter)
  }

  datatype EmailValue = Email(value: string)

  type Email = e: EmailValue | EmailPattern(e.value) witness Email("a@b.co")

  /** `Email(s)`: empty first, then the pattern; the result keeps `s` as its `str()`. */
  function MakeEmail(s: string): (r: Result<Email>)
    ensures r.Ok? <==> EmailPattern(s)
    ensures r.Ok? ==> r.value.value == s
    ensures r.Err? ==> r.error == ValidationError(if s == [] then EmailEmpty else EmailFormat)
  {
    if s == [] then Err(ValidationError(EmailEmpty))
    else if !EmailPattern(s) then Err(ValidationError(EmailFormat))
    else Ok(Email(s))
  }

  /** `Email(s)` as written: `re.match` with `$`, which also matches before a final newline. */
  function MakeEmailAsWritten(s: string): (r: Result<EmailValue>)
    ensures r.Ok? ==> r.value.value == s
  {
    if s == [] then Err(ValidationError(EmailEmpty))
    else if !DollarMatch(s, EmailPattern) then Err(ValidationError(EmailFormat))
    else Ok(Email(s))
  }

  /** The written check accepts an address followed by a newline; the intended one does not. */
  lemma EmailAsWrittenAcceptsNewline()
    ensures MakeEmailAsWritten("a@b.co\n").Ok?
    ensures MakeEmail("a@b.co\n").Err?
  {
    var s := "a@b.co\n";
    assert s[..|s| - 1] == "a@b.co";
    TrailingCountIs(s, NotDot, 3);
    assert !IsAsciiLetter(s[|s| - 3..][2]);
  }

  /** The written check accepts exactly the intended addresses and those texts followed by one newline. */
  lemma EmailAsWrittenDiffers(s: string)
    ensures MakeEmailAsWritten(s).Ok?
            <==> MakeEmail(s).Ok? || (|s| > 0 && s[|s| - 1] == '\n' && EmailPattern(s[..|s| - 1]))
  {
  }

  /** The three pieces of an address: local part, host, top-level domain. */
  function SplitEmail(s: string): (string, string, string) {
    var at := LeadingCount(s, NotAt);
    var t := TrailingCount(s, NotDot);
    if at + 1 <= |s| - t - 1 then (s[..at], s[at + 1..|s| - t - 1], s[|s| - t..])
    else (s[..at], [], s[|s| - t..])
  }

  /** The part before the '@'. */
  function LocalPart(e: Email): string {
    SplitEmail(e.value).0
  }

  /**
   * `Email.domain()`, that is `value.split('@')[1]`: everything after the
   * only '@', which is the host, a dot and the top-level domain.
   */
  function Domain(e: Email): (d: string)
    ensures '@' !in d
    ensures e.value == LocalPart(e) + "@" + d
    ensures d == SplitEmail(e.value).1 + "." + SplitEmail(e.value).2
  {
    var s := e.value;
    var at := LeadingCount(s, NotAt);
    var t := TrailingCount(s, NotDot);
    EmailToParts(s);
    var (l, h, tld) := SplitEmail(s);
    NoAtInHost(h, tld);
    s[at + 1..]
  }

  /** Host and top-level domain characters exclude '@'. */
  lemma NoAtInHost(h: string, t: string)
    requires All(h, IsHostChar) && All(t, IsAsciiLetter)
    ensures '@' !in h + "." + t
  {
    var d := h + "." + t;
    forall i | 0 <= i < |d|
      ensures d[i] != '@'
    {
      if i < |h| {
        assert d[i] == h[i];
      } else if i > |h| {
        assert d[i] == t[i - |h| - 1];
      }
    }
  }

  /** Every address is `local '@' host '.' tld` with the regular expression's character classes. */
  lemma EmailShape(s: string)
    ensures EmailPattern(s) <==>
              var (l, h, t) := SplitEmail(s);
              && s == l + "@" + h + "." + t
              && |l| >= 1 && All(l, IsLocalChar)
              && |h| >= 1 && All(h, IsHostChar)
              && |t| >= 2 && All(t, IsAsciiLetter)
  {
    var (l, h, t) := SplitEmail(s);
    if EmailPattern(s) {
      EmailToParts(s);
    } else if s == l + "@" + h + "." + t && |l| >= 1 && All(l, IsLocalChar) && |h| >= 1 && All(h, IsHostChar) && |t| >= 2 && All(t, IsAsciiLetter) {
      EmailFromParts(l, h, t);
    }
  }

  lemma EmailToParts(s: string)
    requires EmailPattern(s)
    ensures var (l, h, t) := SplitEmail(s);
            && s == l + "@" + h + "." + t
            && |l| >= 1 && All(l, IsLocalChar)
            && |h| >= 1 && All(h, IsHostChar)
            && |t| >= 2 && All(t, IsAsciiLetter)
  {
    var at := LeadingCount(s, NotAt);
    var tt := TrailingCount(s, NotDot);
    var dot := |s| - tt - 1;
    var l, h, t := s[..at], s[at + 1..dot], s[dot + 1..];
    assert SplitEmail(s) == (l, h, t);
    SplitAround(s, at);
    var d := s[at + 1..];
    assert d[dot - at - 1] == s[dot];
    SplitAround(d, dot - at - 1);
    assert d[..dot - at - 1] == h && d[dot - at..] == t;
    JoinParts(s, l, d, h, t);
  }

  /** A string is what comes before position `i`, the character there, and what follows. */
  lemma SplitAround(s: string, i: nat)
    requires i < |s|
    ensures s == s[..i] + [s[i]] + s[i + 1..]
  {
  }

  lemma JoinParts(s: string, l: string, d: string, h: string, t: string)
    requires s == l + "@" + d
    requires d == h + "." + t
    ensures s == l + "@" + h + "." + t
  {
  }

  /** Conversely, any such parts make an address. */
  lemma EmailFromParts(l: string, h: string, t: string)
    requires |l| >= 1 && All(l, IsLocalChar)
    requires |h| >= 1 && All(h, IsHostChar)
    requires |t| >= 2 && All(t, IsAsciiLetter)
    ensures EmailPattern(l + "@" + h + "." + t)
  {
    var s := l + "@" + h + "." + t;
    LeadingCountIs(s, NotAt, |l|);
    TrailingCountIs(s, NotDot, |t|);
    assert s[..|l|] == l;
    assert s[|l| + 1..|s| - |t| - 1] == h;
    assert s[|s| - |t|..] == t;
  }

  // -------------------------------------------------------------- Phone

  /** The characters the phone check looks at: `value.replace(' ', '').replace('-', '')`. */
  function PhoneDigits(s: string): string {
    Without(Without(s, ' '), '-')
  }

  /** The texts a Phone may hold: 7 to 15 ASCII digits once spaces and dashes are removed. */
  predicate IsPhoneText(s: string) {
    var d := PhoneDigits(s);
    7 <= |d| <= 15 && forall i :: 0 <= i < |d| ==> IsAsciiDigit(d[i])
  }

  datatype PhoneValue = Phone(value: string)

  type Phone = p: PhoneValue | IsPhoneText(p.value) witness SevenZeros()

  /** A phone text of seven digits with no separator to remove. */
  function SevenZeros(): (p: PhoneValue)
    ensures IsPhoneText(p.value)
  {
    var s := seq(7, _ => '0');
    WithoutAbsent(s, ' ');
    WithoutAbsent(s, '-');
    Phone(s)
  }

  /**
   * `Phone(s)`: empty, then "only digits" (`isdigit()` is false on an empty
   * string), then the 7 to 15 length bound. `str()` is the unstripped `s`.
   */
  function MakePhone(s: string): (r: Result<Phone>)
    ensures r.Ok? <==> IsPhoneText(s)
    ensures r.Ok? ==> r.value.value == s
    ensures s == [] ==> r == Err(ValidationError(PhoneEmpty))
    ensures s != [] && PhoneDigits(s) == [] ==> r == Err(ValidationError(PhoneNotDigits))
    ensures s != [] && !All(PhoneDigits(s), IsAsciiDigit) ==> r == Err(ValidationError(PhoneNotDigits))
    ensures s != [] && PhoneDigits(s) != [] && All(PhoneDigits(s), IsAsciiDigit) && r.Err? ==>
              r == Err(ValidationError(PhoneLength))
  {
    if s == [] then Err(ValidationError(PhoneEmpty))
    else
      var d := PhoneDigits(s);
      if !(|d| > 0 && All(d, IsAsciiDigit)) then Err(ValidationError(PhoneNotDigits))
      else if |d| < 7 || |d| > 15 then Err(ValidationError(PhoneLength))
      else Ok(Phone(s))
  }

  /** Inserting a space or a dash anywhere does not change whether a phone is accepted. */
  lemma PhoneIgnoresSeparator(a: string, b: string, c: char)
    requires c == ' ' || c == '-'
    ensures MakePhone(a + [c] + b).Ok? <==> MakePhone(a + b).Ok?
  {
    SeparatorDropped(a, b, c);
  }

  /** The checked characters do not see an inserted space or dash. */
  lemma SeparatorDropped(a: string, b: string, c: char)
    requires c == ' ' || c == '-'
    ensures PhoneDigits(a + [c] + b) == PhoneDigits(a + b)
  {
    WithoutInserted(a, b, c, ' ');
    WithoutAppend(a, b, ' ');
    var a1, b1 := Without(a, ' '), Without(b, ' ');
    if c == '-' {
      WithoutInserted(a1, b1, c, '-');
    } else {
      assert a1 + [] + b1 == a1 + b1;
    }
    WithoutAppend(a1, b1, '-');
  }

  // -------------------------------------------------------- ProductCode

  predicate IsCodeChar(c: char) { IsAsciiLetter(c) || IsAsciiDigit(c) || c == '_' || c == '-' }

  /** `[a-zA-Z0-9_-]+` matched against the whole string. */
  predicate CodePattern(s: string) { |s| > 0 && All(s, IsCodeChar) }

  /** The texts a ProductCode may hold: at least three letters, digits, '_' or '-'. */
  predicate IsCodeText(s: string) {
    |s| >= 3 && forall i :: 0 <= i < |s| ==> IsCodeChar(s[i])
  }

  datatype CodeValue = ProductCode(value: string)

  type ProductCode = c: CodeValue | IsCodeText(c.value) witness ProductCode("AAA")

  /** `ProductCode(s)`: empty, too short, bad characters; `str()` keeps the original casing. */
  function MakeProductCode(s: string): (r: Result<ProductCode>)
    ensures r.Ok? <==> IsCodeText(s)
    ensures r.Ok? ==> r.value.value == s
    ensures s == [] ==> r == Err(ValidationError(CodeEmpty))
    ensures 0 < |s| < 3 ==> r == Err(ValidationError(CodeTooShort))
    ensures |s| >= 3 && r.Err? ==> r == Err(ValidationError(CodeFormat))
  {
    if |s| == 0 then Err(ValidationError(CodeEmpty))
    else if |s| < 3 then Err(ValidationError(CodeTooShort))
    else if !CodePattern(s) then Err(ValidationError(CodeFormat))
    else Ok(ProductCode(s))
  }

  /** `ProductCode(s)` as written: `re.match` with `$`, which also matches before a final newline. */
  function MakeProductCodeAsWritten(s: string): (r: Result<CodeValue>)
    ensures r.Ok? ==> r.value.value == s && |s| >= 3
  {
    if |s| == 0 then Err(ValidationError(CodeEmpty))
    else if |s| < 3 then Err(ValidationError(CodeTooShort))
    else if !DollarMatch(s, CodePattern) then Err(ValidationError(CodeFormat))
    else Ok(ProductCode(s))
  }

  /** The written check accepts a two-letter code followed by a newline; the intended one does not. */
  lemma CodeAsWrittenAcceptsNewline()
    ensures MakeProductCodeAsWritten("AB\n").Ok?
    ensures MakeProductCode("AB\n") == Err(ValidationError(CodeFormat))
  {
    var s := "AB\n";
    assert s[..|s| - 1] == "AB";
    assert CodePattern("AB");
    assert !IsCodeChar(s[2]);
  }

  /** The written check accepts exactly the intended codes and those texts followed by one newline. */
  lemma CodeAsWrittenDiffers(s: string)
    ensures MakeProductCodeAsWritten(s).Ok?
            <==> MakeProductCode(s).Ok? || (|s| >= 3 && s[|s| - 1] == '\n' && All(s[..|s| - 1], IsCodeChar))
  {
  }

  /** The hash key, `hash(value.upper())`: as long as the code and already in upper case. */
  function CodeKey(c: ProductCode): (k: string)
    ensures |k| == |c.value|
    ensures Upper(k) == k
  {
    UpperIdempotent(c.value);
    Upper(c.value)
  }

  /** `ProductCode.__eq__`: the upper-cased values agree. */
  predicate SameCode(a: ProductCode, b: ProductCode) {
    Upper(a.value) == Upper(b.value)
  }

  /** Equality is case-insensitive, position by position, and equal codes have equal hash keys. */
  lemma SameCodeCharwise(a: ProductCode, b: ProductCode)
    ensures SameCode(a, b) <==>
              |a.value| == |b.value| && forall i :: 0 <= i < |a.value| ==> UpperChar(a.value[i]) == UpperChar(b.value[i])
    ensures SameCode(a, b) ==> CodeKey(a) == CodeKey(b)
  {
    if |a.value| == |b.value| && forall i :: 0 <= i < |a.value| ==> UpperChar(a.value[i]) == UpperChar(b.value[i]) {
      assert Upper(a.value) == Upper(b.value);
    }
  }

  /** "prod-001" and "PROD-001" are the same code, yet each keeps its own casing. */
  lemma CaseVariantsAreSameCode()
    ensures MakeProductCode("prod-001").Ok? && MakeProductCode("PROD-001").Ok?
    ensures SameCode(MakeProductCode("prod-001").value, MakeProductCode("PROD-001").value)
    ensures MakeProductCode("prod-001").value != MakeProductCode("PROD-001").value
  {
    var a, b := "prod-001", "PROD-001";
    assert IsCodeText(a) && IsCodeText(b);
    SameCodeCharwise(ProductCode(a), ProductCode(b));
  }

  // ----------------------------------------------------------- Quantity

  /** A stock quantity; the type itself makes it non-negative. */
  datatype Quantity = Quantity(value: nat)

  /** `Quantity(v)`: rejected exactly when `v` is negative. */
  function MakeQuantity(v: int): (r: Result<Quantity>)
    ensures r.Ok? <==> v >= 0
    ensures r.Ok? ==> r.value.value == v
    ensures r.Err? ==> r.error == ValidationError(NegativeQuantity)
  {
    if v < 0 then Err(ValidationError(NegativeQuantity)) else Ok(Quantity(v))
  }

  /** `add`: a new quantity holding the sum, built through the constructor, which cannot fail here. */
  function Add(a: Quantity, b: Quantity): (r: Quantity)
    ensures r.value == a.value + b.value
  {
    MakeQuantity(a.value + b.value).value
  }

  /** `is_sufficient(required)`. */
  predicate IsSufficient(q: Quantity, required: Quantity) {
    q.value >= required.value
  }

  /**
   * `subtract`: fails with a ValidationError exactly when the quantity is not
   * sufficient; otherwise the difference.
   */
  function Subtract(a: Quantity, b: Quantity): (r: Result<Quantity>)
    ensures r.Ok? <==> IsSufficient(a, b)
    ensures r.Ok? ==> r.value.value + b.value == a.value
    ensures r.Err? ==> r.error == ValidationError(NegativeDifference)
  {
    var result := a.value - b.value;
    if result < 0 then Err(ValidationError(NegativeDifference)) else MakeQuantity(result)
  }

  /** Subtracting what was added gives back the original quantity. */
  lemma SubtractUndoesAdd(a: Quantity, b: Quantity)
    ensures Subtract(Add(a, b), b) == Ok(a)
  {
  }

  /** Adding back what was subtracted gives back the original quantity. */
  lemma AddUndoesSubtract(a: Quantity, b: Quantity)
    requires IsSufficient(a, b)
    ensures Add(Subtract(a, b).value, b) == a
  {
  }
}
