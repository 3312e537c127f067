/**
 * The field validators and the upload-path helper of cv/models.py. The
 * current date (`date.today()`) and the random hex of `uuid.uuid4()` are
 * parameters.
 */
module Validators {
  import opened Wrappers
  import opened Text

  // ---------------------------------------------------------------
  // Dates
  // ---------------------------------------------------------------

  datatype Date = Date(year: int, month: int, day: int)

  /** `a < b` on Python dates: lexicographic on (year, month, day). */
  predicate Before(a: Date, b: Date)
  {
    a.year < b.year || (a.year == b.year && (a.month < b.month || (a.month == b.month && a.day < b.day)))
  }

  /** The order is total: of two different dates, one comes first. */
  lemma BeforeTotal(a: Date, b: Date)
    ensures a == b || Before(a, b) || Before(b, a)
    ensures !(Before(a, b) && Before(b, a))
  {
  }

  /** Why a value was refused; the parameters are the numbers each message shows. */
  datatype Error =
    | FutureDate
    | EndBeforeStart
    | UnderAge(age: int)
    | OverAge(age: int)
    | NotDigits
    | WrongLength(length: nat)
    | NotPositive
    | InvalidCondition

  /** A validator either returns, or raises `ValidationError`. */
  datatype Verdict = Valid | Invalid(error: Error)

  /** `validar_no_futuro`: a present date strictly after today is refused; today itself is accepted. */
  function NoFuture(d: Option<Date>, today: Date): (v: Verdict)
    ensures v.Invalid? <==> d.Some? && Before(today, d.value)
    ensures v.Invalid? ==> v.error == FutureDate
  {
    if d.Some? && Before(today, d.value) then Invalid(FutureDate) else Valid
  }

  /** A date accepted today stays accepted on every later day. */
  lemma NoFutureLater(d: Option<Date>, today: Date, later: Date)
    requires NoFuture(d, today) == Valid
    requires !Before(later, today)
    ensures NoFuture(d, later) == Valid
  {
  }

  /** `validar_rango_fechas`: refused iff both dates are present and the end precedes the start. */
  function DateRange(start: Option<Date>, end: Option<Date>): (v: Verdict)
    ensures v.Invalid? <==> start.Some? && end.Some? && Before(end.value, start.value)
    ensures v.Invalid? ==> v.error == EndBeforeStart
  {
    if start.Some? && end.Some? && Before(end.value, start.value) then Invalid(EndBeforeStart) else Valid
  }

  /** Two present dates are accepted iff the start is the end or precedes it. */
  lemma DateRangeOrdered(start: Date, end: Date)
    ensures DateRange(Some(start), Some(end)) == Valid <==> start == end || Before(start, end)
  {
    BeforeTotal(start, end);
  }

  // ---------------------------------------------------------------
  // Age (lines 34-39)
  // ---------------------------------------------------------------

  /** By `today`, the person born on `birth` has had their `n`-th birthday. */
  predicate HasTurned(birth: Date, today: Date, n: int)
  {
    !Before(today, Date(birth.year + n, birth.month, birth.day))
  }

  /**
   * The age of `validar_edad_18_100`: the year difference, less one when
   * today's (month, day) precedes the birthday's. It is the number of
   * birthdays had so far: the `age`-th has come and the next has not.
   */
  function Age(birth: Date, today: Date): (age: int)
    ensures HasTurned(birth, today, age) && !HasTurned(birth, today, age + 1)
  {
    var early := today.month < birth.month || (today.month == birth.month && today.day < birth.day);
    today.year - birth.year - (if early then 1 else 0)
  }

  /** A birthday has come iff its number is at most the age. */
  lemma AgeCountsBirthdays(birth: Date, today: Date, n: int)
    ensures HasTurned(birth, today, n) <==> n <= Age(birth, today)
  {
    var age := Age(birth, today);
    if n <= age {
      assert !Before(today, Date(birth.year + age, birth.month, birth.day));
    } else {
      assert Before(today, Date(birth.year + age + 1, birth.month, birth.day));
    }
  }

  /** `validar_edad_18_100`: an absent date passes; otherwise the age must lie in 18..100. */
  function AgeCheck(birth: Option<Date>, today: Date): (v: Verdict)
    ensures v == Valid <==> birth.None? || 18 <= Age(birth.value, today) <= 100
    ensures birth.Some? && Age(birth.value, today) < 18 ==> v == Invalid(UnderAge(Age(birth.value, today)))
    ensures birth.Some? && Age(birth.value, today) > 100 ==> v == Invalid(OverAge(Age(birth.value, today)))
  {
    if birth.None? then Valid
    else
      var age := Age(birth.value, today);
      if age < 18 then Invalid(UnderAge(age))
      else if age > 100 then Invalid(OverAge(age))
      else Valid
  }

  /** A birth date is accepted iff the 18th birthday has come and the 101st has not. */
  lemma AgeCheckByBirthdays(birth: Date, today: Date)
    ensures AgeCheck(Some(birth), today) == Valid <==>
      HasTurned(birth, today, 18) && !HasTurned(birth, today, 101)
  {
    AgeCountsBirthdays(birth, today, 18);
    AgeCountsBirthdays(birth, today, 101);
  }

  /** An accepted birth date is never in the future. */
  lemma AdultBornInThePast(birth: Date, today: Date)
    requires AgeCheck(Some(birth), today) == Valid
    ensures NoFuture(Some(birth), today) == Valid
  {
    AgeCountsBirthdays(birth, today, 0);
    assert Date(birth.year + 0, birth.month, birth.day) == birth;
  }

  // ---------------------------------------------------------------
  // Identifiers and amounts (lines 41-48)
  // ---------------------------------------------------------------

  /**
   * `validar_10_digitos`: an absent or empty value passes; non-digit content
   * is refused before the length is looked at; then exactly ten characters
   * are required.
   */
  function TenDigits(value: Option<string>): (v: Verdict)
    ensures v == Valid <==>
      value.None? || value.value == [] || (|value.value| == 10 && IsDigits(value.value))
    ensures v == Invalid(NotDigits) <==> value.Some? && value.value != [] && !IsDigits(value.value)
    ensures v.Invalid? && v != Invalid(NotDigits) ==> v == Invalid(WrongLength(|value.value|))
  {
    if value.None? || value.value == [] then Valid
    else if !IsDigits(value.value) then Invalid(NotDigits)
    else if |value.value| != 10 then Invalid(WrongLength(|value.value|))
    else Valid
  }

  /** `validar_positivo`: an absent value passes; a present one must exceed zero. */
  function Positive(value: Option<real>): (v: Verdict)
    ensures v.Invalid? <==> value.Some? && value.value <= 0.0
    ensures v.Invalid? ==> v.error == NotPositive
  {
    if value.Some? && value.value <= 0.0 then Invalid(NotPositive) else Valid
  }

  // ---------------------------------------------------------------
  // Upload paths (lines 11-19)
  // ---------------------------------------------------------------

  /** `s.rfind(c)`, with -1 when `c` does not occur. */
  function LastIndex(s: string, c: char): (k: int)
    ensures -1 <= k < |s|
    ensures k >= 0 ==> s[k] == c
    ensures forall j :: k < j < |s| ==> s[j] != c
  {
    if s == [] then -1
    else if s[|s| - 1] == c then |s| - 1
    else LastIndex(s[..|s| - 1], c)
  }

  /**
   * `os.path.splitext(p)[1]` on POSIX paths: from the last '.' of the last
   * path component, provided something other than dots precedes it in that
   * component; otherwise empty.
   */
  function Extension(p: string): (ext: string)
    ensures EndsWith(p, ext)
    ensures ext != [] ==> ext[0] == '.'
    ensures forall i :: 0 < i < |ext| ==> ext[i] != '.' && ext[i] != '/'
    ensures ext != [] ==> exists k :: LastIndex(p, '/') < k < |p| - |ext| && p[k] != '.'
    ensures (exists k, d :: LastIndex(p, '/') < k < d < |p| && p[k] != '.' && p[d] == '.') ==> ext != []
  {
    var sep := LastIndex(p, '/');
    var dot := LastIndex(p, '.');
    if dot > sep && exists k :: sep < k < dot && p[k] != '.' then p[dot..] else []
  }

  /** The directories of the five `upload_*` helpers. */
  datatype UploadKind = ProfilePhoto | ExperienceCertificate | CourseCertificate | Award | ListingPhoto

  /** A relative directory: joined with "/", it gives exactly one separator. */
  function Folder(kind: UploadKind): (f: string)
    ensures f != [] && f[0] != '/' && f[|f| - 1] != '/'
    ensures Free(f, '.')
    ensures f == "perfil" <==> kind == ProfilePhoto
    ensures f == "certificados/experiencia" <==> kind == ExperienceCertificate
    ensures f == "certificados/cursos" <==> kind == CourseCertificate
    ensures f == "certificados/logros" <==> kind == Award
    ensures f == "garage" <==> kind == ListingPhoto
  {
    match kind
    case ProfilePhoto => "perfil"
    case ExperienceCertificate => "certificados/experiencia"
    case CourseCertificate => "certificados/cursos"
    case Award => "certificados/logros"
    case ListingPhoto => "garage"
  }

  predicate IsHexDigit(c: char)
  {
    '0' <= c <= '9' || 'a' <= c <= 'f'
  }

  /** What `uuid4().hex` always is: 32 lower-case hexadecimal digits. */
  predicate IsUuidHex(hex: string)
  {
    |hex| == 32 && forall i :: 0 <= i < |hex| ==> IsHexDigit(hex[i])
  }

  /** `_upload_uuid(prefix, filename)` with the uuid's hex as a parameter. */
  function UploadPath(kind: UploadKind, filename: string, hex: string): (path: string)
    ensures |path| == |Folder(kind)| + 1 + |hex| + |Extension(filename)|
    ensures path[..|Folder(kind)| + 1] == Folder(kind) + "/"
    ensures EndsWith(path, Lower(Extension(filename)))
    ensures path[|Folder(kind)| + 1..|path| - |Extension(filename)|] == hex
  {
    var f := Folder(kind) + "/";
    var ext := Lower(Extension(filename));
    assert (f + hex + ext)[|f|..|f| + |hex|] == hex;
    f + hex + ext
  }

  /** `c` occurs nowhere in `s`. */
  predicate Free(s: string, c: char)
  {
    forall i :: 0 <= i < |s| ==> s[i] != c
  }

  lemma LastIndexAt(s: string, c: char, k: int)
    requires -1 <= k < |s|
    requires k >= 0 ==> s[k] == c
    requires forall j :: k < j < |s| ==> s[j] != c
    ensures LastIndex(s, c) == k
  {
  }

  /** Lower-casing keeps the characters the path syntax is made of where they are. */
  lemma LowerKeepsSyntax(s: string)
    ensures forall i :: 0 <= i < |s| ==> (Lower(s)[i] == '.' <==> s[i] == '.') && (Lower(s)[i] == '/' <==> s[i] == '/')
  {
  }

  /** A name without '/' placed after a directory ending in '/': the last '/' is the directory's. */
  lemma LastSlashOfFile(dir: string, name: string)
    requires |dir| > 0 && dir[|dir| - 1] == '/' && Free(name, '/')
    ensures LastIndex(dir + name, '/') == |dir| - 1
  {
    var path := dir + name;
    assert forall j :: |dir| <= j < |path| ==> path[j] == name[j - |dir|];
    LastIndexAt(path, '/', |dir| - 1);
  }

  /** A file name with neither '/' nor '.' in it has no extension. */
  lemma NoExtension(dir: string, name: string)
    requires |dir| > 0 && dir[|dir| - 1] == '/' && Free(name, '/') && Free(name, '.')
    ensures Extension(dir + name) == []
  {
    var path := dir + name;
    LastSlashOfFile(dir, name);
    assert forall j :: |dir| <= j < |path| ==> path[j] == name[j - |dir|];
    assert LastIndex(path, '.') < |dir|;
  }

  /** A stem of neither '/' nor '.' followed by a '.' suffix: the suffix is the extension. */
  lemma StemExtension(dir: string, stem: string, ext: string)
    requires |dir| > 0 && dir[|dir| - 1] == '/'
    requires stem != [] && Free(stem, '/') && Free(stem, '.')
    requires ext != [] && ext[0] == '.'
    requires forall i :: 0 < i < |ext| ==> ext[i] != '.' && ext[i] != '/'
    ensures Extension(dir + stem + ext) == ext
  {
    var path := dir + stem + ext;
    var at := |dir| + |stem|;
    assert forall j :: |dir| <= j < at ==> path[j] == stem[j - |dir|];
    assert forall j :: at <= j < |path| ==> path[j] == ext[j - at];
    assert Free(stem + ext, '/') by {
      assert forall j :: 0 <= j < |stem + ext| ==> (stem + ext)[j] == path[|dir| + j];
    }
    assert path == dir + (stem + ext);
    LastSlashOfFile(dir, stem + ext);
    LastIndexAt(path, '.', at);
    assert path[|dir|] != '.';
    assert path[at..] == ext;
  }

  /** `folder + "/" + hex + ext` for any folder: the file part is read back exactly. */
  lemma StoredFile(folder: string, hex: string, ext: string)
    requires hex != [] && Free(hex, '/') && Free(hex, '.')
    requires ext == [] || ext[0] == '.'
    requires forall i :: 0 < i < |ext| ==> ext[i] != '.' && ext[i] != '/'
    ensures var path := folder + "/" + hex + ext;
      Extension(path) == ext && LastIndex(path, '/') == |folder| && path[..|folder| + 1] == folder + "/"
  {
    var dir := folder + "/";
    if ext == [] {
      assert dir + hex + ext == dir + hex;
      NoExtension(dir, hex);
      LastSlashOfFile(dir, hex);
    } else {
      StemExtension(dir, hex, ext);
      FreeAppend(hex, ext, '/');
      Regroup(dir, hex, ext);
      LastSlashOfFile(dir, hex + ext);
    }
    PrefixOfAppend(dir, hex + ext);
    Regroup(dir, hex, ext);
  }

  lemma FreeAppend(a: string, b: string, c: char)
    requires Free(a, c) && forall i :: 0 < i < |b| ==> b[i] != c
    requires b != [] ==> b[0] != c
    ensures Free(a + b, c)
  {
  }

  lemma PrefixOfAppend(a: string, b: string)
    ensures (a + b)[..|a|] == a
  {
  }

  /**
   * The stored file keeps the uploaded name's extension, lower-cased, and
   * lies directly in its kind's directory under a name made of the hex.
   */
  lemma UploadKeepsExtension(kind: UploadKind, filename: string, hex: string)
    requires IsUuidHex(hex)
    ensures var path := UploadPath(kind, filename, hex);
      Extension(path) == Lower(Extension(filename))
      && LastIndex(path, '/') == |Folder(kind)|
      && path[..|Folder(kind)| + 1] == Folder(kind) + "/"
      && path[LastIndex(path, '/') + 1..|path| - |Extension(path)|] == hex
  {
    var ext := Lower(Extension(filename));
    LowerKeepsSyntax(Extension(filename));
    assert Free(hex, '/') && Free(hex, '.') by {
      assert forall i :: 0 <= i < |hex| ==> IsHexDigit(hex[i]);
    }
    StoredFile(Folder(kind), hex, ext);
    UploadStem(kind, filename, hex);
  }

  /** The stored name between the folder's '/' and the extension is the hex. */
  lemma UploadStem(kind: UploadKind, filename: string, hex: string)
    requires var path := UploadPath(kind, filename, hex);
      LastIndex(path, '/') == |Folder(kind)| && Extension(path) == Lower(Extension(filename))
    ensures var path := UploadPath(kind, filename, hex);
      path[LastIndex(path, '/') + 1..|path| - |Extension(path)|] == hex
  {
    var path := UploadPath(kind, filename, hex);
    var e := Extension(path);
    assert |e| == |Extension(filename)|;
  }
}
