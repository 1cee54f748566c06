/**
 * Input validators of the administrative forms (src/utils/validation.ts):
 * e-mail and phone syntax, text sanitising, upload checks and the record
 * checks for participants and prizes. Each regular expression of the source
 * is given twice: the executable check, and an independent character-level
 * or pattern-level reference definition that a lemma proves equal to it.
 */
module Validation {
  import opened Wrappers
  import Seqs

  // ---------------------------------------------------------------------
  // Characters

  /** The characters matched by JavaScript's `\s`, which `String.prototype.trim` also removes. */
  predicate IsSpace(c: char)
  {
    || c == ' ' || c == '\t' || c == '\n' || c == '\U{B}' || c == '\U{C}' || c == '\r'
    || c == '\U{A0}' || c == '\U{1680}' || ('\U{2000}' <= c <= '\U{200A}')
    || c == '\U{2028}' || c == '\U{2029}' || c == '\U{202F}' || c == '\U{205F}'
    || c == '\U{3000}' || c == '\U{FEFF}'
  }

  /** A string made of whitespace only (the empty string included). */
  predicate Blank(s: string)
  {
    forall k :: 0 <= k < |s| ==> IsSpace(s[k])
  }

  // ---------------------------------------------------------------------
  // trim

  /** The number of whitespace characters `s` starts with. */
  function LeadingSpaces(s: string): (n: nat)
    ensures n <= |s| && Blank(s[..n])
    ensures n < |s| ==> !IsSpace(s[n])
  {
    if s != [] && IsSpace(s[0]) then
      var n := 1 + LeadingSpaces(s[1..]);
      assert forall k :: 1 <= k < n ==> s[..n][k] == s[1..][..n - 1][k - 1];
      n
    else 0
  }

  /** Drops trailing whitespace. */
  function TrimEnd(s: string): (r: string)
    ensures |r| <= |s| && r == s[..|r|]
    ensures Blank(s[|r|..])
    ensures r != [] ==> !IsSpace(r[|r| - 1])
  {
    if s != [] && IsSpace(s[|s| - 1]) then
      var r := TrimEnd(s[..|s| - 1]);
      assert s[|r|..] == s[..|s| - 1][|r|..] + [s[|s| - 1]];
      r
    else s
  }

  /**
   * `String.prototype.trim`: the infix of `s` that neither starts nor ends
   * with whitespace, everything cut off on either side being whitespace.
   */
  function Trim(s: string): (r: string)
    ensures LeadingSpaces(s) + |r| <= |s| && r == s[LeadingSpaces(s)..LeadingSpaces(s) + |r|]
    ensures Blank(s[..LeadingSpaces(s)]) && Blank(s[LeadingSpaces(s) + |r|..])
    ensures r != [] ==> !IsSpace(r[0]) && !IsSpace(r[|r| - 1])
    ensures r == [] <==> Blank(s)
  {
    var a := LeadingSpaces(s);
    var t := s[a..];
    var r := TrimEnd(t);
    assert t[|r|..] == s[a + |r|..];
    assert r == [] ==> Blank(s) by {
      if r == [] {
        assert a == |s|;
        assert s[..a] == s;
      }
    }
    r
  }

  // ---------------------------------------------------------------------
  // validateEmail

  const MaxEmailLength := 254

  /** A character of the class `[^\s@]`. */
  predicate IsEmailAtom(c: char)
  {
    c != '@' && !IsSpace(c)
  }

  predicate AllEmailAtoms(s: string)
  {
    forall k :: 0 <= k < |s| ==> IsEmailAtom(s[k])
  }

  /**
   * The anchored pattern `^[^\s@]+@[^\s@]+\.[^\s@]+$` read as a split of `s`
   * at an '@' (index i) and a later '.' (index j) into three non-empty runs
   * of atoms.
   */
  ghost predicate EmailPattern(s: string)
  {
    exists i, j :: 0 < i && i + 1 < j && j + 1 < |s| && s[i] == '@' && s[j] == '.'
      && AllEmailAtoms(s[..i]) && AllEmailAtoms(s[i + 1..j]) && AllEmailAtoms(s[j + 1..])
  }

  /** Index of the first `c` in `s`, or `|s|` when there is none. */
  function IndexOf(s: string, c: char): (i: nat)
    ensures i <= |s|
    ensures i < |s| ==> s[i] == c
    ensures forall k :: 0 <= k < i ==> s[k] != c
  {
    if s == [] then 0
    else if s[0] == c then 0
    else 1 + IndexOf(s[1..], c)
  }

  /**
   * The e-mail rule character by character: at most 254 characters, no
   * whitespace, exactly one '@' with something before it, and after it a '.'
   * that is neither the first nor the last character of the domain part.
   */
  predicate EmailShape(email: string)
  {
    && |email| <= MaxEmailLength
    && (forall k | 0 <= k < |email| :: !IsSpace(email[k]))
    && var at := IndexOf(email, '@');
    && 0 < at < |email|
    && (forall k | at < k < |email| :: email[k] != '@')
    && (exists k | at + 1 < k < |email| - 1 :: email[k] == '.')
  }

  /** The character-level rule accepts exactly the strings of the source's regular expression that fit in 254 characters. */
  lemma EmailMatchesPattern(email: string)
    ensures EmailShape(email) <==> |email| <= MaxEmailLength && EmailPattern(email)
  {
    if EmailShape(email) {
      var i := IndexOf(email, '@');
      var j :| i + 1 < j < |email| - 1 && email[j] == '.';
      assert AllEmailAtoms(email[..i]);
      assert AllEmailAtoms(email[i + 1..j]);
      assert AllEmailAtoms(email[j + 1..]);
    }
    if |email| <= MaxEmailLength && EmailPattern(email) {
      var i, j :| 0 < i && i + 1 < j && j + 1 < |email| && email[i] == '@' && email[j] == '.'
        && AllEmailAtoms(email[..i]) && AllEmailAtoms(email[i + 1..j]) && AllEmailAtoms(email[j + 1..]);
      forall k | 0 <= k < |email| && k != i ensures IsEmailAtom(email[k]) || k == j {
        if k < i { assert email[k] == email[..i][k]; }
        else if k < j { assert email[k] == email[i + 1..j][k - i - 1]; }
        else if k > j { assert email[k] == email[j + 1..][k - j - 1]; }
      }
      assert IndexOf(email, '@') == i;
    }
  }

  /** `validateEmail`: the regular expression matches and the address has at most 254 characters. */
  function ValidateEmail(email: string): (r: bool)
    ensures r <==> |email| <= MaxEmailLength && EmailPattern(email)
  {
    EmailMatchesPattern(email);
    EmailShape(email)
  }

  // ---------------------------------------------------------------------
  // validatePhone

  /** A character of the class `[\d\s\-\+\(\)]`. */
  predicate IsPhoneChar(c: char)
  {
    ('0' <= c <= '9') || IsSpace(c) || c == '-' || c == '+' || c == '(' || c == ')'
  }

  const MinPhoneLength := 8
  const MaxPhoneLength := 20

  /** The anchored bounded repetition `^[\d\s\-\+\(\)]{lo,hi}$`, consumed one character at a time. */
  function MatchPhoneRepeat(s: string, lo: int, hi: int): bool
  {
    if s == [] then lo <= 0 <= hi
    else 0 < hi && IsPhoneChar(s[0]) && MatchPhoneRepeat(s[1..], lo - 1, hi - 1)
  }

  lemma {:induction false} PhoneRepeatChars(s: string, lo: int, hi: int)
    ensures MatchPhoneRepeat(s, lo, hi) <==> lo <= |s| <= hi && forall k :: 0 <= k < |s| ==> IsPhoneChar(s[k])
  {
    if s != [] {
      PhoneRepeatChars(s[1..], lo - 1, hi - 1);
      assert forall k :: 1 <= k < |s| ==> s[k] == s[1..][k - 1];
    }
  }

  /** `validatePhone`: the empty string passes (the field is optional); otherwise the pattern must match. */
  function ValidatePhone(phone: string): (r: bool)
    ensures r <==>
      phone == [] || (MinPhoneLength <= |phone| <= MaxPhoneLength && forall k :: 0 <= k < |phone| ==> IsPhoneChar(phone[k]))
  {
    PhoneRepeatChars(phone, MinPhoneLength, MaxPhoneLength);
    if phone == [] then true else MatchPhoneRepeat(phone, MinPhoneLength, MaxPhoneLength)
  }

  // ---------------------------------------------------------------------
  // sanitizeText

  predicate IsAngle(c: char)
  {
    c == '<' || c == '>'
  }

  predicate NotAngle(c: char)
  {
    !IsAngle(c)
  }

  /** `replace(/[<>]/g, '')`: removes every '<' and '>', keeping the other characters in order. */
  function StripAngles(s: string): (r: string)
    ensures |r| <= |s|
    ensures forall k :: 0 <= k < |r| ==> !IsAngle(r[k])
    ensures forall c :: c in r <==> c in s && !IsAngle(c)
    ensures (forall k :: 0 <= k < |s| ==> !IsAngle(s[k])) ==> r == s
  {
    var r := Seqs.Filter(s, NotAngle);
    assert forall k :: 0 <= k < |r| ==> r[k] in r;
    r
  }

  const DefaultMaxLength := 255

  /**
   * `sanitizeText`: trim, keep at most `maxLength` characters (JavaScript's
   * `slice(0, maxLength)`, so a negative bound counts back from the end), then
   * strip angle brackets.
   */
  function SanitizeText(text: string, maxLength: int := DefaultMaxLength): (r: string)
    ensures 0 <= maxLength ==> |r| <= maxLength
    ensures forall k :: 0 <= k < |r| ==> !IsAngle(r[k])
    ensures forall c :: c in r ==> c in text
    ensures |Trim(text)| <= maxLength && (forall k :: 0 <= k < |text| ==> !IsAngle(text[k])) ==> r == Trim(text)
  {
    var t := Trim(text);
    var cut := Seqs.JsSlice(t, maxLength);
    InfixChars(text, t, LeadingSpaces(text));
    assert forall c :: c in cut ==> c in t by {
      forall c | c in cut ensures c in t {
        var k :| 0 <= k < |cut| && cut[k] == c;
        assert cut[k] == t[k];
      }
    }
    StripAngles(cut)
  }

  /** The characters of an infix occur in the whole. */
  lemma InfixChars(s: string, t: string, a: nat)
    requires a + |t| <= |s| && t == s[a..a + |t|]
    ensures forall c :: c in t ==> c in s
    ensures (forall k :: 0 <= k < |s| ==> !IsAngle(s[k])) ==> forall k :: 0 <= k < |t| ==> !IsAngle(t[k])
  {
    forall k | 0 <= k < |t| ensures t[k] == s[a + k] { }
  }

  /** Angle brackets are removed after trimming, so they can shield whitespace from the trim. */
  lemma SanitizeCanLeaveLeadingSpace()
    ensures SanitizeText("< a") == " a"
  {
    var s := "< a";
    assert !IsSpace(s[0]);
    assert LeadingSpaces(s) == 0;
    assert !IsSpace(s[2]);
    assert TrimEnd(s) == s;
    assert Trim(s) == s;
    assert Seqs.JsSlice(s, DefaultMaxLength) == s;
    assert s == ['<'] + [' '] + ['a'];
    Seqs.FilterAppend(['<'], [' '] + ['a'], NotAngle);
    Seqs.FilterAppend([' '], ['a'], NotAngle);
  }

  // ---------------------------------------------------------------------
  // File checks

  /** The `type` and `size` of a browser `File`. */
  datatype FileInfo = FileInfo(mimeType: string, size: int)

  /** `{ isValid: true }` or `{ isValid: false, error }`. */
  datatype ValidationResult = Valid | Invalid(error: string)

  const ImageTypes: seq<string> := ["image/jpeg", "image/jpg", "image/png", "image/gif", "image/webp"]
  const MaxImageSize := 5 * 1024 * 1024
  const ImageTypeError := "Format file tidak didukung. Gunakan JPEG, PNG, GIF, atau WebP."
  const ImageSizeError := "Ukuran file terlalu besar. Maksimal 5MB."

  const ExcelTypes: seq<string> := ["application/vnd.openxmlformats-officedocument.spreadsheetml.sheet", "application/vnd.ms-excel"]
  const MaxExcelSize := 10 * 1024 * 1024
  const ExcelTypeError := "Format file tidak didukung. Gunakan file Excel (.xlsx atau .xls)."
  const ExcelSizeError := "Ukuran file terlalu besar. Maksimal 10MB."

  /** Shared shape of both upload checks: the type is checked before the size. */
  function CheckFile(file: FileInfo, allowed: seq<string>, maxSize: int, typeError: string, sizeError: string): (r: ValidationResult)
    ensures r == Valid <==> file.mimeType in allowed && file.size <= maxSize
    ensures file.mimeType !in allowed ==> r == Invalid(typeError)
    ensures file.mimeType in allowed && maxSize < file.size ==> r == Invalid(sizeError)
  {
    if file.mimeType !in allowed then Invalid(typeError)
    else if file.size > maxSize then Invalid(sizeError)
    else Valid
  }

  /** `validateImageFile`: one of five image types and at most 5 MiB; a bad type is reported first. */
  function ValidateImageFile(file: FileInfo): (r: ValidationResult)
    ensures r == Valid <==> file.mimeType in ImageTypes && file.size <= 5_242_880
    ensures file.mimeType !in ImageTypes ==> r == Invalid(ImageTypeError)
    ensures file.mimeType in ImageTypes && 5_242_880 < file.size ==> r == Invalid(ImageSizeError)
  {
    CheckFile(file, ImageTypes, MaxImageSize, ImageTypeError, ImageSizeError)
  }

  /** `validateExcelFile`: one of two spreadsheet types and at most 10 MiB; a bad type is reported first. */
  function ValidateExcelFile(file: FileInfo): (r: ValidationResult)
    ensures r == Valid <==> file.mimeType in ExcelTypes && file.size <= 10_485_760
    ensures file.mimeType !in ExcelTypes ==> r == Invalid(ExcelTypeError)
    ensures file.mimeType in ExcelTypes && 10_485_760 < file.size ==> r == Invalid(ExcelSizeError)
  {
    CheckFile(file, ExcelTypes, MaxExcelSize, ExcelTypeError, ExcelSizeError)
  }

  // ---------------------------------------------------------------------
  // Record checks

  /**
   * A form field as the record checks see it: `None` when it is missing.
   * The name and e-mail checks also turn away a value that is not a string
   * (`typeof data.x !== 'string'`), which is `None` here as well; the phone
   * check has no such test, and a phone that is not a string is not modelled.
   */
  type Field = Option<string>

  /** `data.x && typeof data.x === 'string' && data.x.trim().length > 0`. */
  predicate FilledIn(field: Field)
  {
    field.Some? && field.value != [] && Trim(field.value) != []
  }

  datatype ParticipantInput = ParticipantInput(name: Field, email: Field, phone: Field)

  const ParticipantNameError := "Nama peserta harus diisi"
  const EmailError := "Email tidak valid"
  const PhoneError := "Format nomor telepon tidak valid"

  /** An e-mail field the source accepts, stated through the reference pattern. */
  ghost predicate EmailFieldOk(email: Field)
  {
    email.Some? && |email.value| <= MaxEmailLength && EmailPattern(email.value)
  }

  /** A phone field the source accepts (absent or empty skips the check), stated character by character. */
  predicate PhoneFieldOk(phone: Field)
  {
    phone.None? || phone.value == []
    || (MinPhoneLength <= |phone.value| <= MaxPhoneLength
        && forall k :: 0 <= k < |phone.value| ==> IsPhoneChar(phone.value[k]))
  }

  /** The executable field checks agree with the reference definitions. */
  lemma FieldChecks(email: Field, phone: Field)
    ensures EmailFieldOk(email) <==> email.Some? && email.value != [] && ValidateEmail(email.value)
    ensures PhoneFieldOk(phone) <==> phone.None? || phone.value == [] || ValidatePhone(phone.value)
  {
    if email.Some? { EmailMatchesPattern(email.value); }
  }

  /**
   * `validateParticipantData`: the name must hold a non-space character, then
   * the e-mail must be valid, then a given phone must be valid; the first
   * failing check names the error.
   */
  function ValidateParticipantData(data: ParticipantInput): (r: ValidationResult)
    ensures r == Valid <==>
      (data.name.Some? && !Blank(data.name.value)) && EmailFieldOk(data.email) && PhoneFieldOk(data.phone)
    ensures !(data.name.Some? && !Blank(data.name.value)) ==> r == Invalid(ParticipantNameError)
    ensures data.name.Some? && !Blank(data.name.value) && !EmailFieldOk(data.email) ==> r == Invalid(EmailError)
    ensures data.name.Some? && !Blank(data.name.value) && EmailFieldOk(data.email) && !PhoneFieldOk(data.phone)
      ==> r == Invalid(PhoneError)
  {
    FieldChecks(data.email, data.phone);
    if !FilledIn(data.name) then
      Invalid(ParticipantNameError)
    else if data.email.None? || data.email.value == [] || !ValidateEmail(data.email.value) then
      Invalid(EmailError)
    else if data.phone.Some? && data.phone.value != [] && !ValidatePhone(data.phone.value) then
      Invalid(PhoneError)
    else
      Valid
  }

  /** The prize form: the name, and the quantity after `parseInt` (`None` for `NaN`). */
  datatype PrizeInput = PrizeInput(name: Field, quantity: Option<int>)

  const PrizeNameError := "Nama hadiah harus diisi"
  const QuantityError := "Jumlah hadiah harus antara 1-1000"
  const MaxPrizeQuantity := 1000

  /** `validatePrizeData`: a non-blank name, then a quantity from 1 to 1000. */
  function ValidatePrizeData(data: PrizeInput): (r: ValidationResult)
    ensures r == Valid <==>
      data.name.Some? && !Blank(data.name.value) && data.quantity.Some? && 1 <= data.quantity.value <= 1000
    ensures !(data.name.Some? && !Blank(data.name.value)) ==> r == Invalid(PrizeNameError)
    ensures data.name.Some? && !Blank(data.name.value) && !(data.quantity.Some? && 1 <= data.quantity.value <= 1000)
      ==> r == Invalid(QuantityError)
  {
    if !FilledIn(data.name) then
      Invalid(PrizeNameError)
    else if data.quantity.None? || data.quantity.value < 1 || data.quantity.value > MaxPrizeQuantity then
      Invalid(QuantityError)
    else
      Valid
  }
}
