// The admin forms of admin/forms.py: the API-key form (owner, expiry date, hit limit, origins)
// and the change-password form, with the error messages WTForms' validators produce. A field's
// validators run in order; DataRequired stops the chain, the others add a message and go on.
// When DataRequired fails it first clears the field's earlier errors, the parse error of a
// DateField or IntegerField included, so its message is then the only one.
module Forms {
  import opened Wrappers
  import opened Text
  import opened Clock

  const RequiredMessage := "This field is required."
  const HitLimitMessage := "Hit limit must be at least 1"
  const ShortPasswordMessage := "Field must be at least 6 characters long."
  const MismatchMessage := "Passwords do not match"

  /** DataRequired on text: the value holds something besides whitespace (str.strip() is not empty). */
  predicate Present(s: string) {
    exists i :: 0 <= i < |s| && !IsSpace(s[i])
  }

  // ---------------------------------------------------------------------------
  // APIKeyForm

  /**
   * What the key form received: the owner name, the raw expiry text, the hit limit as IntegerField
   * read it (None when the text is not an integer) and the space-separated origins.
   */
  datatype KeyForm = KeyForm(ownerName: string, expiryText: string, hitLimit: Option<int>, allowedOrigins: string)

  const DefaultHitLimit := 1000

  /** DateField with format '%Y-%m-%d': the date read from the text, if any. */
  function ExpiryDate(f: KeyForm): Option<Date> {
    ParseDay(f.expiryText)
  }

  function OwnerErrors(owner: string): seq<string> {
    if Present(owner) then [] else [RequiredMessage]
  }

  /**
   * An unreadable date leaves the field's data None; DataRequired then drops DateField's parse
   * error and reports the field as missing.
   */
  function ExpiryErrors(expiryText: string): (errors: seq<string>)
    ensures errors == [] <==> ParseDay(expiryText).Some?
    ensures ParseDay(expiryText).None? ==> errors == [RequiredMessage]
  {
    if ParseDay(expiryText).Some? then [] else [RequiredMessage]
  }

  /**
   * DataRequired, then validate_hit_limit. DataRequired tests truthiness, so a limit of 0 is
   * reported as missing and never reaches the `< 1` check; text that is not an integer leaves the
   * data None, and DataRequired drops IntegerField's parse error for its own message.
   */
  function HitLimitErrors(limit: Option<int>): (errors: seq<string>)
    ensures errors == [] <==> limit.Some? && limit.value >= 1
    ensures limit.None? ==> errors == [RequiredMessage]
    ensures limit == Some(0) ==> errors == [RequiredMessage]
    ensures limit.Some? && limit.value < 0 ==> errors == [HitLimitMessage]
  {
    if limit.None? || limit.value == 0 then [RequiredMessage]
    else if limit.value < 1 then [HitLimitMessage]
    else []
  }

  /** validate_on_submit() of APIKeyForm (allowed_origins has no validator). */
  predicate KeyFormValid(f: KeyForm) {
    OwnerErrors(f.ownerName) == [] && ExpiryErrors(f.expiryText) == [] && HitLimitErrors(f.hitLimit) == []
  }

  /** The key form is accepted exactly when the owner is given, the date reads and the limit is at least 1. */
  lemma KeyFormAccepted(f: KeyForm)
    ensures KeyFormValid(f) <==>
      Present(f.ownerName) && ExpiryDate(f).Some? && f.hitLimit.Some? && f.hitLimit.value >= 1
  {
  }

  /**
   * The form's defaults: hit limit 1000 and an expiry 30 days after `today`, as the form shows it
   * (Python's date arithmetic raises past 9999-12-31, so `today` lies 30 days before it).
   */
  function DefaultKeyForm(today: Date): KeyForm
    requires ValidDate(today) && DayNumber(today) + 30 <= DayNumber(LastDate)
  {
    AddDaysNumber(today, 30);
    KeyForm("", FormatDay(AddDays(today, 30)), Some(DefaultHitLimit), "")
  }

  /** The default expiry date lies 30 days after today, and the default limit is accepted. */
  lemma DefaultsRead(today: Date)
    requires ValidDate(today) && 1000 <= today.year
    requires DayNumber(today) + 30 <= DayNumber(LastDate)
    ensures var f := DefaultKeyForm(today);
      && ExpiryDate(f).Some?
      && DayNumber(ExpiryDate(f).value) == DayNumber(today) + 30
      && HitLimitErrors(f.hitLimit) == []
      && OwnerErrors(f.ownerName) == [RequiredMessage]
  {
    var d := AddDays(today, 30);
    AddDaysNumber(today, 30);
    AddDaysYear(today, 30);
    ParseDayOfFormat(d);
  }

  lemma {:induction false} AddDaysYear(d: Date, n: nat)
    ensures AddDays(d, n).year >= d.year
    decreases n
  {
    if n > 0 {
      AddDaysYear(NextDay(d), n - 1);
    }
  }

  // ---------------------------------------------------------------------------
  // ChangePasswordForm

  /** DataRequired, then Length(min=6). */
  function NewPasswordErrors(newPassword: string): (errors: seq<string>)
    ensures errors == [] <==> Present(newPassword) && |newPassword| >= 6
    ensures |errors| <= 1
  {
    if !Present(newPassword) then [RequiredMessage]
    else if |newPassword| < 6 then [ShortPasswordMessage]
    else []
  }

  /** DataRequired, Length(min=6), then validate_confirm_password. */
  function ConfirmPasswordErrors(newPassword: string, confirm: string): (errors: seq<string>)
    ensures errors == [] <==> Present(confirm) && |confirm| >= 6 && confirm == newPassword
    ensures Present(confirm) && confirm != newPassword ==> errors[|errors| - 1] == MismatchMessage
  {
    if !Present(confirm) then [RequiredMessage]
    else
      (if |confirm| < 6 then [ShortPasswordMessage] else []) +
      (if confirm != newPassword then [MismatchMessage] else [])
  }

  predicate PasswordFormValid(current: string, newPassword: string, confirm: string) {
    Present(current) && NewPasswordErrors(newPassword) == [] && ConfirmPasswordErrors(newPassword, confirm) == []
  }

  /** A password change is accepted exactly when both new fields agree on a usable password of 6 or more characters. */
  lemma PasswordFormAccepted(current: string, newPassword: string, confirm: string)
    ensures PasswordFormValid(current, newPassword, confirm) <==>
      Present(current) && Present(newPassword) && |newPassword| >= 6 && confirm == newPassword
  {
  }
}
