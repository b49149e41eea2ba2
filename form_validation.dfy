/** The registration form's client-side checks (frontend/script.js): the
    e-mail and phone patterns, the photo checks on selection, on drop and on
    submit, the note's 500-character cap and the blur-time field marks. */
module FormValidation {
  import opened Common

  // ---------------------------------------------------------------- e-mail

  /** `[^\s@]`: any character except white space and `@`. */
  predicate EmailChar(c: char) {
    !IsJsSpace(c) && c != '@'
  }

  predicate AllEmailChars(s: string) {
    forall k :: 0 <= k < |s| ==> EmailChar(s[k])
  }

  /** `validateEmail`: the whole string matches `[^\s@]+@[^\s@]+\.[^\s@]+`,
      that is, it splits at some `@` (index `i`) and some later `.` (index
      `j`) into three non-empty runs of `[^\s@]`. */
  predicate ValidateEmail(email: string) {
    exists i, j | 0 < i && i + 1 < j && j + 1 < |email| ::
      email[i] == '@' && email[j] == '.' &&
      AllEmailChars(email[..i]) && AllEmailChars(email[i + 1..j]) && AllEmailChars(email[j + 1..])
  }

  /** The shape of an accepted address in plain terms: no white space, exactly
      one `@` (at index `at`), something before it, and a `.` after it that
      is neither the first nor the last character of the domain. */
  ghost predicate EmailShape(s: string) {
    (forall k :: 0 <= k < |s| ==> !IsJsSpace(s[k])) &&
    exists at, d :: 0 < at && at + 1 < d < |s| - 1 && s[at] == '@' && s[d] == '.' &&
      forall k :: 0 <= k < |s| && s[k] == '@' ==> k == at
  }

  lemma {:induction false} EmailCharsOfSlice(s: string, lo: int, hi: int)
    requires 0 <= lo <= hi <= |s| && AllEmailChars(s[lo..hi])
    ensures forall k :: lo <= k < hi ==> EmailChar(s[k])
  {
    forall k | lo <= k < hi
      ensures EmailChar(s[k])
    {
      assert s[lo..hi][k - lo] == s[k];
    }
  }

  lemma {:induction false} EmailCharsToSlice(s: string, lo: int, hi: int)
    requires 0 <= lo <= hi <= |s| && forall k :: lo <= k < hi ==> EmailChar(s[k])
    ensures AllEmailChars(s[lo..hi])
  {
    forall k | 0 <= k < hi - lo
      ensures EmailChar(s[lo..hi][k])
    {
      assert s[lo..hi][k] == s[lo + k];
    }
  }

  lemma {:induction false} EmailMatchHasShape(s: string)
    requires ValidateEmail(s)
    ensures EmailShape(s)
  {
    var i, j :| 0 < i && i + 1 < j && j + 1 < |s| &&
      s[i] == '@' && s[j] == '.' &&
      AllEmailChars(s[..i]) && AllEmailChars(s[i + 1..j]) && AllEmailChars(s[j + 1..]);
    assert s[..i] == s[0..i] && s[j + 1..] == s[j + 1..|s|];
    EmailCharsOfSlice(s, 0, i);
    EmailCharsOfSlice(s, i + 1, j);
    EmailCharsOfSlice(s, j + 1, |s|);
    assert forall k :: 0 <= k < |s| && k != i && k != j ==> EmailChar(s[k]);
    assert forall k :: 0 <= k < |s| && s[k] == '@' ==> k == i;
    assert forall k :: 0 <= k < |s| ==> !IsJsSpace(s[k]);
  }

  lemma {:induction false} EmailShapeMatches(s: string)
    requires EmailShape(s)
    ensures ValidateEmail(s)
  {
    var at, d :| 0 < at && at + 1 < d < |s| - 1 && s[at] == '@' && s[d] == '.' &&
      forall k :: 0 <= k < |s| && s[k] == '@' ==> k == at;
    assert forall k :: 0 <= k < |s| && k != at ==> EmailChar(s[k]);
    EmailCharsToSlice(s, 0, at);
    EmailCharsToSlice(s, at + 1, d);
    EmailCharsToSlice(s, d + 1, |s|);
    assert s[..at] == s[0..at] && s[d + 1..] == s[d + 1..|s|];
  }

  /** The pattern accepts exactly the addresses of that shape. */
  lemma ValidateEmailShape(s: string)
    ensures ValidateEmail(s) <==> EmailShape(s)
  {
    if ValidateEmail(s) {
      EmailMatchHasShape(s);
    }
    if EmailShape(s) {
      EmailShapeMatches(s);
    }
  }

  // ----------------------------------------------------------------- phone

  /** `[\s-]`: the characters `validatePhone` strips before matching. */
  predicate PhoneSeparator(c: char) {
    IsJsSpace(c) || c == '-'
  }

  /** `phone.replace(/[\s-]/g, '')`. */
  function CleanPhone(phone: string): (r: string)
    ensures forall k :: 0 <= k < |r| ==> !PhoneSeparator(r[k])
  {
    var r := Filter(phone, (c: char) => !PhoneSeparator(c));
    assert forall k :: 0 <= k < |r| ==> r[k] in r;
    r
  }

  predicate AllDigits(s: string) {
    forall k :: 0 <= k < |s| ==> IsAsciiDigit(s[k])
  }

  /** `1[0-9]{9}` followed by the end of the string. */
  predicate Subscriber(rest: string) {
    |rest| == 10 && rest[0] == '1' && AllDigits(rest[1..])
  }

  /** `^(?:\+880|0)1[0-9]{9}$`. */
  predicate MatchesPhonePattern(c: string) {
    ("+880" <= c && Subscriber(c[4..])) || ("0" <= c && Subscriber(c[1..]))
  }

  /** `validatePhone`. */
  predicate ValidatePhone(phone: string) {
    MatchesPhonePattern(CleanPhone(phone))
  }

  /** An accepted number, once cleaned, is the national form (11 characters,
      starting `01`) or the international form (14 characters, starting
      `+8801`), digits after the prefix. */
  lemma ValidatePhoneShape(phone: string)
    ensures var c := CleanPhone(phone);
      ValidatePhone(phone) <==>
        (|c| == 11 && c[..2] == "01" && AllDigits(c[2..])) ||
        (|c| == 14 && c[..5] == "+8801" && AllDigits(c[5..]))
  {
    var c := CleanPhone(phone);
    if |c| == 11 && c[..2] == "01" {
      assert c[1..][1..] == c[2..];
    }
    if |c| == 14 && c[..5] == "+8801" {
      assert c[4..][1..] == c[5..];
    }
    if "0" <= c && Subscriber(c[1..]) {
      assert c[1..][1..] == c[2..];
    }
    if "+880" <= c && Subscriber(c[4..]) {
      assert c[4..][1..] == c[5..];
    }
  }

  /** Separators may be inserted anywhere without changing the cleaned
      number, hence the verdict. */
  lemma {:induction false} SeparatorsIgnored(a: string, sep: string, b: string)
    requires forall k :: 0 <= k < |sep| ==> PhoneSeparator(sep[k])
    ensures CleanPhone(a + sep + b) == CleanPhone(a + b)
    ensures ValidatePhone(a + sep + b) == ValidatePhone(a + b)
  {
    var keep := (c: char) => !PhoneSeparator(c);
    var fa, fb := Filter(a, keep), Filter(b, keep);
    assert Filter(a + sep, keep) == fa by {
      FilterNone(sep, keep);
      FilterAppend(a, sep, keep);
      assert fa + [] == fa;
    }
    assert Filter(a + sep + b, keep) == fa + fb by {
      FilterAppend(a + sep, b, keep);
    }
    assert Filter(a + b, keep) == fa + fb by {
      FilterAppend(a, b, keep);
    }
  }

  /** A prefix without separators survives cleaning unchanged. */
  lemma {:induction false} CleanPrefix(p: string, rest: string)
    requires forall k :: 0 <= k < |p| ==> !PhoneSeparator(p[k])
    ensures CleanPhone(p + rest) == p + CleanPhone(rest)
  {
    var keep := (c: char) => !PhoneSeparator(c);
    FilterAppend(p, rest, keep);
    FilterAll(p, keep);
  }

  /** `0` and `+880` are interchangeable prefixes. */
  lemma {:induction false} PrefixesInterchangeable(rest: string)
    ensures ValidatePhone("0" + rest) == ValidatePhone("+880" + rest)
  {
    CleanPrefix("0", rest);
    CleanPrefix("+880", rest);
    var c := CleanPhone(rest);
    assert ("+880" + c)[4..] == c && ("0" + c)[1..] == c;
    assert !("0" <= "+880" + c) && !("+880" <= "0" + c);
  }

  lemma {:induction false} TrimStartDropsSpaces(s: string)
    ensures forall k :: 0 <= k < |s| - |TrimStart(s)| ==> IsJsSpace(s[k])
  {
    if s != [] && IsJsSpace(s[0]) {
      TrimStartDropsSpaces(s[1..]);
      forall k | 0 < k < |s| - |TrimStart(s)|
        ensures IsJsSpace(s[k])
      {
        assert s[1..][k - 1] == s[k];
      }
    }
  }

  lemma {:induction false} TrimEndDropsSpaces(s: string)
    ensures forall k :: |TrimEnd(s)| <= k < |s| ==> IsJsSpace(s[k])
  {
    if s != [] && IsJsSpace(s[|s| - 1]) {
      TrimEndDropsSpaces(s[..|s| - 1]);
    }
  }

  lemma {:induction false} LeadingSeparatorsIgnored(sep: string, b: string)
    requires forall k :: 0 <= k < |sep| ==> PhoneSeparator(sep[k])
    ensures CleanPhone(sep + b) == CleanPhone(b)
  {
    var keep := (c: char) => !PhoneSeparator(c);
    FilterNone(sep, keep);
    FilterAppend(sep, b, keep);
    assert [] + Filter(b, keep) == Filter(b, keep);
  }

  lemma {:induction false} TrailingSeparatorsIgnored(a: string, sep: string)
    requires forall k :: 0 <= k < |sep| ==> PhoneSeparator(sep[k])
    ensures CleanPhone(a + sep) == CleanPhone(a)
  {
    var keep := (c: char) => !PhoneSeparator(c);
    FilterNone(sep, keep);
    FilterAppend(a, sep, keep);
    assert Filter(a, keep) + [] == Filter(a, keep);
  }

  lemma {:induction false} TrimStartKeepsCleaned(phone: string)
    ensures CleanPhone(TrimStart(phone)) == CleanPhone(phone)
  {
    var t := TrimStart(phone);
    var front := phone[..|phone| - |t|];
    TrimStartDropsSpaces(phone);
    forall k | 0 <= k < |front|
      ensures PhoneSeparator(front[k])
    {
      assert front[k] == phone[k];
    }
    assert phone == front + t;
    LeadingSeparatorsIgnored(front, t);
  }

  lemma {:induction false} TrimEndKeepsCleaned(phone: string)
    ensures CleanPhone(TrimEnd(phone)) == CleanPhone(phone)
  {
    var t := TrimEnd(phone);
    var back := phone[|t|..];
    TrimEndDropsSpaces(phone);
    forall k | 0 <= k < |back|
      ensures PhoneSeparator(back[k])
    {
      assert back[k] == phone[|t| + k];
    }
    assert phone == t + back;
    TrailingSeparatorsIgnored(t, back);
  }

  /** Trimming before the phone check, as the submit handler does, changes
      nothing: the check strips white space anyway. */
  lemma TrimIrrelevantForPhone(phone: string)
    ensures ValidatePhone(Trim(phone)) == ValidatePhone(phone)
  {
    TrimStartKeepsCleaned(phone);
    TrimEndKeepsCleaned(TrimStart(phone));
  }

  // ----------------------------------------------------------------- photo

  /** The parts of a browser `File` the checks read. */
  datatype File = File(name: string, size: int, mimeType: string)

  const MaxPhotoBytes := 3 * 1024 * 1024

  const SelectPhotoMessage := "\U{26A0}\U{FE0F} Please select a profile photo"
  const PhotoSizeMessage := "\U{26A0}\U{FE0F} Photo size must be less than 3MB"
  const PhotoTypeMessage := "\U{26A0}\U{FE0F} Only JPG and PNG files are allowed"
  const DropTypeMessage := "\U{26A0}\U{FE0F} Please upload a JPG or PNG image"
  const PhoneMessage := "\U{26A0}\U{FE0F} Please enter a valid phone number"
  const EmailMessage := "\U{26A0}\U{FE0F} Please enter a valid email address"
  const PhoneBlurMessage := "\U{26A0}\U{FE0F} Please enter a valid phone number (e.g., 01748269350)"

  predicate AcceptedMimeType(t: string) {
    t == "image/jpeg" || t == "image/png"
  }

  /** `name.split('.').pop()`: the text after the last `.`, or the whole
      name when it has none. */
  function Extension(name: string): (r: string)
    ensures |r| <= |name|
  {
    if name == [] then []
    else if name[|name| - 1] == '.' then []
    else Extension(name[..|name| - 1]) + [name[|name| - 1]]
  }

  /** The extension is a dot-free suffix of the name, and it is the longest
      one: the character before it, if any, is a dot. */
  lemma {:induction false} ExtensionSpec(name: string)
    ensures var r := Extension(name);
      '.' !in r && r == name[|name| - |r|..] &&
      (|r| < |name| ==> name[|name| - |r| - 1] == '.')
  {
    if name != [] && name[|name| - 1] != '.' {
      var init := name[..|name| - 1];
      var last := name[|name| - 1];
      ExtensionSpec(init);
      var e := Extension(init);
      assert Extension(name) == e + [last];
      assert name[|name| - |e| - 1..] == init[|init| - |e|..] + [last];
      if |e| < |init| {
        assert name[|name| - |e| - 2] == init[|init| - |e| - 1];
      }
    }
  }

  predicate AcceptedExtension(name: string) {
    var e := Lower(Extension(name));
    e == "jpg" || e == "jpeg" || e == "png"
  }

  /** What the page does when a file is chosen or dropped. */
  datatype PhotoDecision = NoFile | Refused(message: string) | Previewed(file: File)

  /** `handlePhotoSelect`: the size is checked before the MIME type. */
  function PhotoSelect(file: Option<File>): PhotoDecision {
    match file
    case None => NoFile
    case Some(f) =>
      if f.size > MaxPhotoBytes then Refused(PhotoSizeMessage)
      else if !AcceptedMimeType(f.mimeType) then Refused(PhotoTypeMessage)
      else Previewed(f)
  }

  /** The drop handler: only the MIME type is checked; an empty drop is
      refused with the same message. */
  function PhotoDrop(file: Option<File>): PhotoDecision {
    if file.Some? && AcceptedMimeType(file.value.mimeType) then Previewed(file.value)
    else Refused(DropTypeMessage)
  }

  /** A chosen file is previewed exactly when it is at most 3 MiB and a JPEG
      or PNG; an oversized file is refused for its size whatever its type. */
  lemma PhotoSelectSpec(file: Option<File>, f: File)
    ensures PhotoSelect(file) == Previewed(f) <==>
      file == Some(f) && f.size <= MaxPhotoBytes && AcceptedMimeType(f.mimeType)
    ensures file.Some? && file.value.size > MaxPhotoBytes ==> PhotoSelect(file) == Refused(PhotoSizeMessage)
    ensures PhotoSelect(file) == NoFile <==> file.None?
  {
  }

  // ---------------------------------------------------------------- submit

  /** Result of `validateForm`: accepted, or refused with the message shown. */
  datatype FormCheck = Accepted | Rejected(message: string)

  /** `validateForm`: photo present, at most 3 MiB, a jpg/jpeg/png name; then
      the trimmed phone, then the trimmed e-mail. The first failure decides
      the message. */
  function ValidateForm(photo: Option<File>, phone: string, email: string): FormCheck {
    if photo.None? then Rejected(SelectPhotoMessage)
    else if photo.value.size > MaxPhotoBytes then Rejected(PhotoSizeMessage)
    else if !AcceptedExtension(photo.value.name) then Rejected(PhotoTypeMessage)
    else if !ValidatePhone(Trim(phone)) then Rejected(PhoneMessage)
    else if !ValidateEmail(Trim(email)) then Rejected(EmailMessage)
    else Accepted
  }

  /** An accepted form carries a photo of at most 3 MiB whose name ends in
      jpg, jpeg or png (in any case), a phone number in the national or
      international form, and an e-mail address of the accepted shape. */
  lemma AcceptedFormSpec(photo: Option<File>, phone: string, email: string)
    requires ValidateForm(photo, phone, email) == Accepted
    ensures photo.Some? && photo.value.size <= MaxPhotoBytes
    ensures var e := Lower(Extension(photo.value.name));
      e == "jpg" || e == "jpeg" || e == "png"
    ensures var c := CleanPhone(phone);
      (|c| == 11 && c[..2] == "01") || (|c| == 14 && c[..5] == "+8801")
    ensures EmailShape(Trim(email))
  {
    TrimIrrelevantForPhone(phone);
    ValidatePhoneShape(phone);
    ValidateEmailShape(Trim(email));
  }

  /** The photo checks come first: without a photo, or with an oversized
      one, the phone and e-mail fields are never looked at. */
  lemma PhotoChecksFirst(photo: Option<File>, phone: string, email: string, phone2: string, email2: string)
    requires photo.None? || photo.value.size > MaxPhotoBytes || !AcceptedExtension(photo.value.name)
    ensures ValidateForm(photo, phone, email) == ValidateForm(photo, phone2, email2)
    ensures ValidateForm(photo, phone, email).Rejected?
  {
  }

  /** Once the photo passes, the phone is checked before the e-mail: a bad
      phone is reported whatever the e-mail field holds, and the e-mail
      decides only for a good phone. */
  lemma PhoneBeforeEmail(f: File, phone: string, email: string, email2: string)
    requires f.size <= MaxPhotoBytes && AcceptedExtension(f.name)
    ensures ValidateForm(Some(f), phone, email) == Rejected(PhoneMessage) <==> !ValidatePhone(Trim(phone))
    ensures !ValidatePhone(Trim(phone)) ==> ValidateForm(Some(f), phone, email2) == Rejected(PhoneMessage)
    ensures ValidateForm(Some(f), phone, email) == Rejected(EmailMessage) <==>
      ValidatePhone(Trim(phone)) && !ValidateEmail(Trim(email))
    ensures ValidateForm(Some(f), phone, email) == Accepted <==>
      ValidatePhone(Trim(phone)) && ValidateEmail(Trim(email))
  {
  }

  /** A photo dropped onto the upload area skips the size check, but an
      oversized one is still refused on submit. */
  lemma {:induction false} OversizedDropCaughtOnSubmit(f: File, phone: string, email: string)
    requires AcceptedMimeType(f.mimeType) && f.size > MaxPhotoBytes
    ensures PhotoDrop(Some(f)) == Previewed(f)
    ensures PhotoSelect(Some(f)) == Refused(PhotoSizeMessage)
    ensures ValidateForm(Some(f), phone, email) == Rejected(PhotoSizeMessage)
  {
  }

  // ------------------------------------------------------ note and blur

  const NoteMaxLength := 500

  /** The note field after an input event, with the counter's figure and
      colour. */
  datatype NoteView = NoteView(value: string, shownCount: nat, overLimit: bool)

  /** The note's input handler: the counter shows the length typed, and a
      value over 500 characters is cut to its first 500. */
  function NoteInput(value: string): (v: NoteView)
    ensures |v.value| <= NoteMaxLength && v.value <= value
    ensures v.value == value <==> |value| <= NoteMaxLength
    ensures v.shownCount == |value| && (v.overLimit <==> |value| > NoteMaxLength)
  {
    if |value| > NoteMaxLength then NoteView(value[..NoteMaxLength], |value|, true)
    else NoteView(value, |value|, false)
  }

  /** A second input event on the cut value changes nothing more. */
  lemma NoteInputIdempotent(value: string)
    ensures NoteInput(NoteInput(value).value).value == NoteInput(value).value
    ensures !NoteInput(NoteInput(value).value).overLimit
  {
  }

  /** How a field is marked when it loses focus. */
  datatype Mark = Unmarked | MarkedError(message: string) | MarkedValid

  /** A blur handler: an empty field is left alone, otherwise it is marked
      by the check on the untrimmed value. */
  function BlurMark(value: string, valid: bool, message: string): Mark {
    if value != [] && !valid then MarkedError(message)
    else if value != [] then MarkedValid
    else Unmarked
  }

  function EmailBlur(value: string): Mark {
    BlurMark(value, ValidateEmail(value), "\U{26A0}\U{FE0F} Please enter a valid email address")
  }

  function PhoneBlur(value: string): Mark {
    BlurMark(value, ValidatePhone(value), PhoneBlurMessage)
  }

  /** For the phone field, the blur mark agrees with the submit check,
      which trims first. */
  lemma PhoneBlurAgreesWithSubmit(value: string)
    requires value != []
    ensures PhoneBlur(value) == MarkedValid <==> ValidatePhone(Trim(value))
  {
    TrimIrrelevantForPhone(value);
  }

  /** An address with white space anywhere in it is refused. */
  lemma SpaceNotEmail(s: string, k: int)
    requires 0 <= k < |s| && IsJsSpace(s[k])
    ensures !ValidateEmail(s)
  {
    ValidateEmailShape(s);
  }

  lemma {:induction false} TrimPadded(e: string)
    requires e != [] && !IsJsSpace(e[0]) && !IsJsSpace(e[|e| - 1])
    ensures Trim(" " + e) == e
  {
    assert (" " + e)[1..] == e;
    assert TrimStart(e) == e;
    assert TrimStart(" " + e) == e;
  }

  /** For the e-mail field it does not: an accepted address typed after a
      space is marked as an error on blur, yet accepted on submit. */
  lemma {:induction false} EmailBlurStricterThanSubmit(e: string)
    requires ValidateEmail(e)
    ensures EmailBlur(" " + e) == MarkedError(EmailMessage)
    ensures Trim(" " + e) == e && ValidateEmail(Trim(" " + e))
  {
    SpaceNotEmail(" " + e, 0);
    EmailMatchHasShape(e);
    TrimPadded(e);
  }
}
