// The shaping of a verification result in app.py: the scraped fields of the registry page are
// mapped to nineteen output keys in a fixed order, dates written "%d %B %Y" are rewritten as
// "%d/%m/%Y", and English text with Latin letters is title-cased. Also the required-field checks
// that /submit and /api/verify make before they drive the browser.
module VerificationMapping {
  import opened Wrappers
  import opened Text
  import opened Clock
  import opened Values

  // ---------------------------------------------------------------------------
  // _to_title_case_if_latin

  /** A character whose lower case lies between 'a' and 'z' (the Kelvin sign and dotted capital I among them). */
  predicate LatinSignal(c: char) {
    IsAsciiLetter(c) || c == '\U{0130}' || c == '\U{212A}'
  }

  predicate HasLatin(s: string) {
    exists i :: 0 <= i < |s| && LatinSignal(s[i])
  }

  /**
   * str.title() on ASCII letters: a letter right after a letter is lowered, any other letter is
   * raised; everything else is kept.
   */
  function TitleCase(s: string): (t: string)
    ensures |t| == |s|
  {
    seq(|s|, i requires 0 <= i < |s| => if i > 0 && IsAsciiLetter(s[i - 1]) then AsciiLower(s[i]) else AsciiUpper(s[i]))
  }

  predicate IsUpperAscii(c: char) { 'A' <= c <= 'Z' }

  /** Title case changes the case of letters only. */
  lemma TitleCaseLower(s: string)
    ensures LowerAscii(TitleCase(s)) == LowerAscii(s)
  {
    var t := TitleCase(s);
    LowerAsciiAt(s);
    LowerAsciiAt(t);
    forall i | 0 <= i < |s|
      ensures LowerAscii(t)[i] == LowerAscii(s)[i]
    {
      assert AsciiLower(t[i]) == AsciiLower(s[i]);
    }
  }

  /** A letter comes out upper-case exactly when it starts a run of letters; other characters are kept. */
  lemma TitleCaseWordStarts(s: string, i: int)
    requires 0 <= i < |s|
    ensures IsAsciiLetter(s[i]) ==>
      IsAsciiLetter(TitleCase(s)[i]) && (IsUpperAscii(TitleCase(s)[i]) <==> i == 0 || !IsAsciiLetter(s[i - 1]))
    ensures !IsAsciiLetter(s[i]) ==> TitleCase(s)[i] == s[i]
  {
  }

  /** Title-casing twice is title-casing once. */
  lemma TitleCaseIdempotent(s: string)
    ensures TitleCase(TitleCase(s)) == TitleCase(s)
  {
    var t := TitleCase(s);
    forall i | 0 <= i < |s|
      ensures TitleCase(t)[i] == t[i]
    {
      if i > 0 {
        assert IsAsciiLetter(t[i - 1]) == IsAsciiLetter(s[i - 1]);
      }
    }
  }

  lemma TitleCaseExamples()
    ensures TitleCase("o'neil") == "O'Neil"
    ensures TitleCase("MD. RAHIM UDDIN") == "Md. Rahim Uddin"
  {
    assert TitleCase("o'neil") == "O'Neil" by {
      var t := TitleCase("o'neil");
      assert t[0] == 'O' && t[1] == '\'' && t[2] == 'N' && t[3] == 'e' && t[4] == 'i' && t[5] == 'l';
    }
    assert TitleCase("MD. RAHIM UDDIN") == "Md. Rahim Uddin" by {
      var t := TitleCase("MD. RAHIM UDDIN");
      assert t[0] == 'M' && t[1] == 'd' && t[2] == '.' && t[3] == ' ' && t[4] == 'R' && t[5] == 'a';
      assert t[6] == 'h' && t[7] == 'i' && t[8] == 'm' && t[9] == ' ' && t[10] == 'U' && t[11] == 'd';
      assert t[12] == 'd' && t[13] == 'i' && t[14] == 'n';
    }
  }

  /** _to_title_case_if_latin: a string holding a Latin letter title-cased, anything else as it came. */
  function TitleIfLatin(v: Value): (r: Value)
    ensures !v.Str? ==> r == v
    ensures v.Str? && !HasLatin(v.s) ==> r == v
    ensures v.Str? && HasLatin(v.s) ==> r.Str? && LowerAscii(r.s) == LowerAscii(v.s)
  {
    match v
    case Str(s) =>
      TitleCaseLower(s);
      if HasLatin(s) then Str(TitleCase(s)) else v
    case _ => v
  }

  // ---------------------------------------------------------------------------
  // _format_date: strptime "%d %B %Y", then strftime "%d/%m/%Y"

  const MonthNames: seq<string> := ["january", "february", "march", "april", "may", "june", "july",
    "august", "september", "october", "november", "december"]

  /** `name` matches the start of s without regard to case (the regex is compiled IGNORECASE). */
  predicate CaselessPrefix(name: string, s: string) {
    |name| <= |s| && forall i :: 0 <= i < |name| ==> AsciiLower(s[i]) == AsciiLower(name[i])
  }

  /**
   * %B: the month whose full name the text starts with, tried from month k + 1 on, and the text
   * after the name.
   */
  function MonthFrom(s: string, k: nat): (r: Option<Field>)
    requires k <= 12
    ensures r.Some? ==>
      && k + 1 <= r.value.value <= 12
      && CaselessPrefix(MonthNames[r.value.value - 1], s)
      && r.value.rest == s[|MonthNames[r.value.value - 1]|..]
    ensures r.None? ==> forall j | k <= j < 12 :: !CaselessPrefix(MonthNames[j], s)
    decreases 12 - k
  {
    if k == 12 then None
    else if CaselessPrefix(MonthNames[k], s) then Some(Field(k + 1, s[|MonthNames[k]|..]))
    else MonthFrom(s, k + 1)
  }

  /** datetime.strptime(s, "%d %B %Y") as a date; None where it raises. The blanks match any whitespace run. */
  function ParseDmy(s: string): (r: Option<Date>)
    ensures r.Some? ==> ValidDate(r.value)
  {
    var day :- Match(Day, s);
    var gap1 :- Match(Blank, day.rest);
    var month :- MonthFrom(gap1.rest, 0);
    var gap2 :- Match(Blank, month.rest);
    var year :- Match(Year, gap2.rest);
    var d := Date(year.value, month.value, day.value);
    if year.rest == [] && ValidDate(d) then Some(d) else None
  }

  /** "%d/%m/%Y" */
  function FormatDmy(d: Date): string
    requires ValidDate(d)
  {
    Pad2(d.day) + ("/" + (Pad2(d.month) + ("/" + Year4(d.year))))
  }

  /** _format_date: a string that reads as "%d %B %Y" rewritten as "%d/%m/%Y"; anything else kept (strptime raises on a non-string too). */
  function FormatDate(v: Value): (r: Value)
    ensures v.Str? && ParseDmy(v.s).Some? ==> r == Str(FormatDmy(ParseDmy(v.s).value))
    ensures !(v.Str? && ParseDmy(v.s).Some?) ==> r == v
  {
    if v.Str? then
      match ParseDmy(v.s)
      case Some(d) => Str(FormatDmy(d))
      case None => v
    else v
  }

  /** The registry's way of writing a date: "%d %B %Y", as in "05 March 2021". */
  function LongDate(d: Date): string
    requires ValidDate(d)
  {
    Pad2(d.day) + (" " + (MonthTitle(d.month) + (" " + Year4(d.year))))
  }

  function MonthTitle(m: int): string
    requires 1 <= m <= 12
  {
    [AsciiUpper(MonthNames[m - 1][0])] + MonthNames[m - 1][1..]
  }

  /** Where the names of two months first differ: within their first three letters. */
  function DifferAt(a: nat, b: nat): (j: nat)
    requires a < 12 && b < 12 && a != b
    ensures j < 3 && AsciiLower(MonthNames[a][j]) != AsciiLower(MonthNames[b][j])
  {
    if MonthNames[a][0] != MonthNames[b][0] then 0
    else if MonthNames[a][1] != MonthNames[b][1] then 1
    else 2
  }

  /** A month's name matches its title, whatever follows it. */
  lemma MonthTitleMatches(m: int, rest: string)
    requires 1 <= m <= 12
    ensures CaselessPrefix(MonthNames[m - 1], MonthTitle(m) + rest)
    ensures (MonthTitle(m) + rest)[|MonthNames[m - 1]|..] == rest
  {
    var s := MonthTitle(m) + rest;
    var name := MonthNames[m - 1];
    assert |MonthTitle(m)| == |name|;
    forall i | 0 <= i < |name|
      ensures AsciiLower(s[i]) == AsciiLower(name[i])
    {
      assert s[i] == MonthTitle(m)[i];
    }
  }

  /** Another month's name does not match a month's title. */
  lemma MonthTitleMisses(m: int, rest: string, k: nat)
    requires 1 <= m <= 12 && k < 12 && k != m - 1
    ensures !CaselessPrefix(MonthNames[k], MonthTitle(m) + rest)
  {
    var s := MonthTitle(m) + rest;
    var j := DifferAt(k, m - 1);
    assert s[j] == MonthTitle(m)[j];
  }

  /** %B reads a month's title back, whatever follows it, trying months from k + 1 on. */
  lemma {:induction false} MonthFromOf(m: int, rest: string, k: nat)
    requires 1 <= m <= 12 && k <= m - 1
    ensures MonthFrom(MonthTitle(m) + rest, k) == Some(Field(m, rest))
    decreases m - 1 - k
  {
    if k == m - 1 {
      MonthTitleMatches(m, rest);
    } else {
      MonthTitleMisses(m, rest, k);
      MonthFromOf(m, rest, k + 1);
    }
  }

  /** A date the registry writes reads back as the same date. */
  lemma ParseDmyOfLongDate(d: Date)
    requires ValidDate(d)
    ensures ParseDmy(LongDate(d)) == Some(d)
  {
    var tail := " " + Year4(d.year);
    var afterGap := MonthTitle(d.month) + tail;
    DayOf(d.day, " " + afterGap);
    MonthPartOf(d.month, tail);
    YearPartOf(d.year);
    assert LongDate(d) == Pad2(d.day) + (" " + afterGap);
  }

  /** " <Month>" after the day: the blank, then the month, up to what follows. */
  lemma MonthPartOf(m: int, tail: string)
    requires 1 <= m <= 12
    ensures Match(Blank, " " + (MonthTitle(m) + tail)) == Some(Field(0, MonthTitle(m) + tail))
    ensures MonthFrom(MonthTitle(m) + tail, 0) == Some(Field(m, tail))
  {
    assert (MonthTitle(m) + tail)[0] == AsciiUpper(MonthNames[m - 1][0]);
    BlankOf(MonthTitle(m) + tail);
    MonthFromOf(m, tail, 0);
  }

  /** " <Year>" at the end: the blank, then four digits and nothing after. */
  lemma YearPartOf(y: int)
    requires 1 <= y <= 9999
    ensures Match(Blank, " " + Year4(y)) == Some(Field(0, Year4(y)))
    ensures Match(Year, Year4(y)) == Some(Field(y, []))
  {
    assert !IsSpace(Year4(y)[0]);
    BlankOf(Year4(y));
    YearOf(y, []);
    assert Year4(y) + [] == Year4(y);
  }

  /** _format_date turns a date the registry writes into "%d/%m/%Y" of the same date. */
  lemma FormatDateOfLongDate(d: Date)
    requires ValidDate(d)
    ensures FormatDate(Str(LongDate(d))) == Str(FormatDmy(d))
  {
    ParseDmyOfLongDate(d);
  }

  /** What _format_date writes holds digits and slashes only, so title-casing leaves it alone. */
  lemma FormatDmyNotLatin(d: Date)
    requires ValidDate(d)
    ensures !HasLatin(FormatDmy(d))
  {
    var s := FormatDmy(d);
    forall i | 0 <= i < |s|
      ensures IsDigit(s[i]) || s[i] == '/'
    {
      if i < 2 { assert s[i] == Pad2(d.day)[i]; }
      else if i == 2 { }
      else if i < 5 { assert s[i] == Pad2(d.month)[i - 3]; }
      else if i == 5 { }
      else { assert s[i] == Year4(d.year)[i - 6]; }
    }
  }

  // ---------------------------------------------------------------------------
  // map_verification_data

  const NameBnKey := "\U{09A8}\U{09BF}\U{09AC}\U{09A8}\U{09CD}\U{09A7}\U{09BF}\U{09A4} \U{09AC}\U{09CD}\U{09AF}\U{0995}\U{09CD}\U{09A4}\U{09BF}\U{09B0} \U{09A8}\U{09BE}\U{09AE}"
  const FatherNameBnKey := "\U{09AA}\U{09BF}\U{09A4}\U{09BE}\U{09B0} \U{09A8}\U{09BE}\U{09AE}"
  /** "Father's nationality" spelt with YA and NUKTA, then with the precomposed YYA. */
  const FatherNationalityBnKey := "\U{09AA}\U{09BF}\U{09A4}\U{09BE}\U{09B0} \U{099C}\U{09BE}\U{09A4}\U{09C0}\U{09AF}\U{09BC}\U{09A4}\U{09BE}"
  const FatherNationalityBnAltKey := "\U{09AA}\U{09BF}\U{09A4}\U{09BE}\U{09B0} \U{099C}\U{09BE}\U{09A4}\U{09C0}\U{09DF}\U{09A4}\U{09BE}"
  const MotherNameBnKey := "\U{09AE}\U{09BE}\U{09A4}\U{09BE}\U{09B0} \U{09A8}\U{09BE}\U{09AE}"
  const MotherNationalityBnKey := "\U{09AE}\U{09BE}\U{09A4}\U{09BE}\U{09B0} \U{099C}\U{09BE}\U{09A4}\U{09C0}\U{09AF}\U{09BC}\U{09A4}\U{09BE}"
  const MotherNationalityBnAltKey := "\U{09AE}\U{09BE}\U{09A4}\U{09BE}\U{09B0} \U{099C}\U{09BE}\U{09A4}\U{09C0}\U{09DF}\U{09A4}\U{09BE}"
  const BirthPlaceBnKey := "\U{099C}\U{09A8}\U{09CD}\U{09AE}\U{09B8}\U{09CD}\U{09A5}\U{09BE}\U{09A8}"

  /** The scraped fields whose text is read as a date. */
  const DateFields: set<string> := {"Registration Date", "Issuance Date", "Date of Birth", "birthPlaceEn"}

  /** The nested get(key): the scraped text or "", read as a date for the date fields, then title-cased if Latin. */
  function EnglishField(raw: map<string, Value>, key: string): Value {
    var v := Get(raw, key, Str(""));
    TitleIfLatin(if key in DateFields then FormatDate(v) else v)
  }

  /** The output keys, in order. */
  const OutputKeys: seq<string> := ["office", "address", "register", "issue", "brn", "dob", "sex",
    "nameEn", "nameBn", "fatherNameEn", "fatherNameBn", "fatherNationalityEn", "fatherNationalityBn",
    "motherNameEn", "motherNameBn", "motherNationalityEn", "motherNationalityBn", "birthPlaceEn", "birthPlaceBn"]

  /** The scraped field each output key reads (for a nationality in Bengali, the spelling tried first). */
  const SourceKeys: seq<string> := ["Registration Office", "address", "Registration Date", "Issuance Date",
    "Birth Registration Number", "Date of Birth", "Sex", "Registered Person Name", NameBnKey, "Father's Name",
    FatherNameBnKey, "Father's Nationality", FatherNationalityBnKey, "Mother's Name", MotherNameBnKey,
    "Mother's Nationality", MotherNationalityBnKey, "birthPlaceEn", BirthPlaceBnKey]

  /** The positions of the Bengali outputs. */
  const BengaliSlots: set<int> := {8, 10, 12, 14, 16, 18}

  /** The second spelling tried for a Bengali nationality, or "" where there is none. */
  function AltKey(i: int): string {
    if i == 12 then FatherNationalityBnAltKey else if i == 16 then MotherNationalityBnAltKey else ""
  }

  /** The value of output slot i: a Bengali field copied (with a second spelling tried for a nationality), an English one through EnglishField. */
  function SlotValue(raw: map<string, Value>, i: int): Value
    requires 0 <= i < 19
  {
    if i == 12 || i == 16 then Get(raw, SourceKeys[i], Get(raw, AltKey(i), Str("")))
    else if i in BengaliSlots then Get(raw, SourceKeys[i], Str(""))
    else EnglishField(raw, SourceKeys[i])
  }

  /**
   * map_verification_data: the result as an ordered list of output keys and values, slot by slot
   * as the OrderedDict literal lists them ("address" goes through the title-casing alone, which is
   * what EnglishField does for a field that is not a date).
   */
  function MapVerificationData(raw: map<string, Value>): seq<(string, Value)> {
    seq(19, i requires 0 <= i < 19 => (OutputKeys[i], SlotValue(raw, i)))
  }

  /** No output key appears twice, so the ordered dict keeps all nineteen entries. */
  lemma OutputKeysDistinct()
    ensures forall i, j | 0 <= i < j < |OutputKeys| :: OutputKeys[i] != OutputKeys[j]
  {
  }

  /** Exactly four English slots read their field as a date: register, issue, dob and birthPlaceEn. */
  lemma DateSlots(i: int)
    requires 0 <= i < 19 && i !in BengaliSlots
    ensures SourceKeys[i] in DateFields <==> i in {2, 3, 5, 17}
  {
  }

  /** A Bengali value is the scraped value itself, or "": never title-cased nor read as a date. */
  lemma MappedBengali(raw: map<string, Value>, i: int)
    requires i in BengaliSlots && i != 12 && i != 16
    ensures MapVerificationData(raw)[i].1 == Get(raw, SourceKeys[i], Str(""))
  {
  }

  /** A nationality in Bengali is read under its decomposed spelling, else its precomposed one, else "". */
  lemma NationalityFallback(raw: map<string, Value>)
    ensures var r := MapVerificationData(raw);
      && r[12].1 == (if FatherNationalityBnKey in raw then raw[FatherNationalityBnKey]
                     else if FatherNationalityBnAltKey in raw then raw[FatherNationalityBnAltKey] else Str(""))
      && r[16].1 == (if MotherNationalityBnKey in raw then raw[MotherNationalityBnKey]
                     else if MotherNationalityBnAltKey in raw then raw[MotherNationalityBnAltKey] else Str(""))
  {
  }

  /** With none of the fields scraped, every value is the empty string. */
  lemma MappedEmpty()
    ensures forall i | 0 <= i < |MapVerificationData(map[])| :: MapVerificationData(map[])[i].1 == Str("")
  {
    assert ParseDmy("") == None;
    assert !HasLatin("");
  }

  /** A date field the registry wrote as "%d %B %Y" comes out as "%d/%m/%Y" of that date. */
  lemma MappedDate(raw: map<string, Value>, i: int, d: Date)
    requires i in {2, 3, 5, 17} && ValidDate(d)
    requires SourceKeys[i] in raw && raw[SourceKeys[i]] == Str(LongDate(d))
    ensures MapVerificationData(raw)[i] == (OutputKeys[i], Str(FormatDmy(d)))
  {
    DateSlots(i);
    EnglishDateField(raw, SourceKeys[i], d);
    assert MapVerificationData(raw)[i].1 == SlotValue(raw, i);
  }

  lemma EnglishDateField(raw: map<string, Value>, key: string, d: Date)
    requires key in DateFields && ValidDate(d)
    requires key in raw && raw[key] == Str(LongDate(d))
    ensures EnglishField(raw, key) == Str(FormatDmy(d))
  {
    FormatDateOfLongDate(d);
    FormatDmyNotLatin(d);
  }

  // ---------------------------------------------------------------------------
  // Required fields of /submit and /api/verify

  /** How a route's input check ends: go on to the browser, a 400 with a message, or an exception (a 500). */
  datatype Check = Proceed | BadRequest(error: string) | Raised

  predicate AllGiven(fields: map<string, Value>, a: string, b: string, c: string) {
    Truthy(Get(fields, a, Null)) && Truthy(Get(fields, b, Null)) && Truthy(Get(fields, c, Null))
  }

  /** /submit: `data.get` on a body that is not a JSON object raises; a falsy or missing field is refused. */
  function SubmitCheck(data: Value): (r: Check)
    ensures r == Proceed <==> data.Object? && AllGiven(data.fields, "regNumber", "dob", "captcha")
    ensures r.BadRequest? ==> r.error == "All fields are required"
    ensures r == Raised <==> !data.Object?
  {
    match data
    case Object(fields) =>
      if AllGiven(fields, "regNumber", "dob", "captcha") then Proceed else BadRequest("All fields are required")
    case _ => Raised
  }

  /**
   * /api/verify: a falsy body (none, {}, [], "", 0) is refused first; any other body that is not
   * an object raises; then a falsy or missing field is refused.
   */
  function ApiVerifyCheck(data: Value): (r: Check)
    ensures r == Proceed <==> data.Object? && AllGiven(data.fields, "reg_number", "dob", "captcha")
    ensures r == BadRequest("Request must include JSON data") <==> !Truthy(data)
    ensures r == BadRequest("Missing required fields: reg_number, dob, and captcha are required") <==>
      data.Object? && |data.fields| > 0 && !AllGiven(data.fields, "reg_number", "dob", "captcha")
    ensures r == Raised <==> Truthy(data) && !data.Object?
  {
    if !Truthy(data) then BadRequest("Request must include JSON data")
    else match data
      case Object(fields) =>
        if AllGiven(fields, "reg_number", "dob", "captcha") then Proceed
        else BadRequest("Missing required fields: reg_number, dob, and captcha are required")
      case _ => Raised
  }
}
