/**
 * The validation of the CV records of cv/models.py: each model's `clean()`,
 * the field validators Django runs before it (`full_clean`), and the
 * validate-then-persist `save` of `CleanSaveMixin`. A record holds only the
 * fields that some validation looks at.
 */
module Records {
  import opened Wrappers
  import opened Text
  import opened Validators

  /** The validated fields of each model. */
  datatype Row =
    | Profile(birth: Option<Date>, idNumber: Option<string>, mobile: Option<string>)
    | Experience(start: Option<Date>, end: Option<Date>)
    | Course(start: Option<Date>, end: Option<Date>, totalHours: Option<int>)
    | Recognition(awarded: Option<Date>)
    | AcademicProduct
    | LaborProduct(produced: Option<Date>)
    | Listing(published: Option<Date>, condition: string, price: Option<real>)

  /** What a `clean()` call does: raise its first error, or return with the record as it leaves it. */
  datatype Cleaned = Raised(error: Error) | Passed(row: Row)

  /** Run one validator; go on with `next` only if it returns. */
  function Then(v: Verdict, next: Cleaned): Cleaned
  {
    if v.Invalid? then Raised(v.error) else next
  }

  /** The conditions a listing may be in, after normalisation. */
  const Conditions: set<string> := {"Bueno", "Regular"}

  /**
   * `clean()` of each model: profiles check a present birth date against the
   * future and the age bounds; experience and courses check both dates
   * against the future and then their order; awards and labour products
   * check their one date; academic products have no `clean`; a listing
   * checks its publication date, then capitalises a non-empty condition,
   * refuses it unless it is "Bueno" or "Regular", and stores the
   * capitalised form.
   */
  function CleanRow(row: Row, today: Date): (c: Cleaned)
    ensures c.Passed? && !row.Listing? ==> c.row == row
    ensures c.Passed? && row.Listing? ==> c.row.Listing? && c.row == row.(condition := c.row.condition)
    ensures row.Profile? ==>
      (c.Passed? <==> NoFuture(row.birth, today) == Valid && AgeCheck(row.birth, today) == Valid)
    ensures row.Profile? && c.Raised? ==>
      c.error == if NoFuture(row.birth, today).Invalid? then FutureDate else AgeCheck(row.birth, today).error
    ensures row.Recognition? ==> (c.Passed? <==> NoFuture(row.awarded, today) == Valid)
    ensures row.LaborProduct? ==> (c.Passed? <==> NoFuture(row.produced, today) == Valid)
    ensures (row.Recognition? || row.LaborProduct?) && c.Raised? ==> c.error == FutureDate
    ensures row.AcademicProduct? ==> c.Passed?
    ensures row.Experience? || row.Course? ==>
      (c.Passed? <==>
        (row.start.None? || !Before(today, row.start.value))
        && (row.end.None? || !Before(today, row.end.value))
        && (row.start.Some? && row.end.Some? ==> !Before(row.end.value, row.start.value)))
    ensures (row.Experience? || row.Course?) && c.Raised? ==>
      c.error == if NoFuture(row.start, today).Invalid? || NoFuture(row.end, today).Invalid? then FutureDate else EndBeforeStart
    ensures row.Listing? && c.Raised? ==>
      c.error == if NoFuture(row.published, today).Invalid? then FutureDate else InvalidCondition
  {
    match row
    case Profile(birth, _, _) =>
      if birth.Some? then Then(NoFuture(birth, today), Then(AgeCheck(birth, today), Passed(row)))
      else Passed(row)
    case Experience(start, end) => CleanSpan(start, end, today, row)
    case Course(start, end, _) => CleanSpan(start, end, today, row)
    case Recognition(awarded) => Then(NoFuture(awarded, today), Passed(row))
    case AcademicProduct => Passed(row)
    case LaborProduct(produced) => Then(NoFuture(produced, today), Passed(row))
    case Listing(published, condition, _) =>
      Then(NoFuture(published, today),
        if condition == "" then Passed(row)
        else
          var normalized := Capitalize(condition);
          if normalized !in Conditions then Raised(InvalidCondition)
          else Passed(row.(condition := normalized)))
  }

  /** The shared body of the two `clean()` methods over a start and an end date. */
  function CleanSpan(start: Option<Date>, end: Option<Date>, today: Date, row: Row): (c: Cleaned)
    ensures c.Passed? ==> c == Passed(row)
    ensures c.Raised? ==> c.error in {FutureDate, EndBeforeStart}
    ensures NoFuture(start, today).Invalid? ==> c == Raised(FutureDate)
    ensures c == Raised(EndBeforeStart) ==> NoFuture(start, today) == Valid && NoFuture(end, today) == Valid
  {
    Then(NoFuture(start, today), Then(NoFuture(end, today), Then(DateRange(start, end), Passed(row))))
  }

  function ErrorOf(v: Verdict): seq<Error>
  {
    if v.Invalid? then [v.error] else []
  }

  function HoursAsAmount(hours: Option<int>): Option<real>
  {
    if hours.Some? then Some(hours.value as real) else None
  }

  /**
   * The field validators `full_clean` runs before `clean()`: age and the two
   * ten-digit numbers of a profile, the hours of a course, the price of a
   * listing.
   */
  function FieldErrors(row: Row, today: Date): (errors: seq<Error>)
    ensures errors == [] <==>
      match row
      case Profile(birth, idNumber, mobile) =>
        AgeCheck(birth, today) == Valid && TenDigits(idNumber) == Valid && TenDigits(mobile) == Valid
      case Course(_, _, hours) => hours.None? || hours.value > 0
      case Listing(_, _, price) => price.None? || price.value > 0.0
      case _ => true
    ensures row.Profile? ==>
      var age, id, phone := AgeCheck(row.birth, today), TenDigits(row.idNumber), TenDigits(row.mobile);
      |errors| == (if age.Invalid? then 1 else 0) + (if id.Invalid? then 1 else 0) + (if phone.Invalid? then 1 else 0)
      && forall e :: e in errors <==>
        (age.Invalid? && e == age.error) || (id.Invalid? && e == id.error) || (phone.Invalid? && e == phone.error)
    ensures row.Course? || row.Listing? ==> errors == [] || errors == [NotPositive]
    ensures FutureDate !in errors && EndBeforeStart !in errors && InvalidCondition !in errors
  {
    match row
    case Profile(birth, idNumber, mobile) =>
      ErrorOf(AgeCheck(birth, today)) + ErrorOf(TenDigits(idNumber)) + ErrorOf(TenDigits(mobile))
    case Course(_, _, hours) => ErrorOf(Positive(HoursAsAmount(hours)))
    case Listing(_, _, price) => ErrorOf(Positive(price))
    case _ => []
  }

  /** The errors `full_clean` collects: the field errors, then the one `clean()` raised. */
  function FullCleanErrors(row: Row, today: Date): (errors: seq<Error>)
    ensures errors == [] <==> FieldErrors(row, today) == [] && CleanRow(row, today).Passed?
    ensures |FieldErrors(row, today)| <= |errors| <= |FieldErrors(row, today)| + 1
    ensures errors[..|FieldErrors(row, today)|] == FieldErrors(row, today)
  {
    FieldErrors(row, today) + (if CleanRow(row, today).Raised? then [CleanRow(row, today).error] else [])
  }

  /** The record as `full_clean` leaves it: `clean()` runs whatever the field errors were. */
  function AfterFullClean(row: Row, today: Date): (after: Row)
    ensures !row.Listing? ==> after == row
    ensures row.Listing? ==> after.Listing? && after == row.(condition := after.condition)
    ensures CleanRow(row, today).Raised? ==> after == row
  {
    if CleanRow(row, today).Passed? then CleanRow(row, today).row else row
  }

  /**
   * The writes made to the tables, in order: a log of rows. A write of an
   * existing primary key updates that row in the database; the log records it
   * as one more write.
   */
  class Database {
    var rows: seq<Row>

    constructor ()
      ensures rows == []
    {
      rows := [];
    }

    method Insert(row: Row)
      modifies this
      ensures rows == old(rows) + [row]
    {
      rows := rows + [row];
    }
  }

  /** A model instance in memory. */
  class Instance {
    var row: Row

    constructor (row: Row)
      ensures this.row == row
    {
      this.row := row;
    }

    /** `clean()`: only a listing's normalised condition is written back, and only when nothing was raised. */
    method Clean(today: Date) returns (raised: Option<Error>)
      modifies this
      ensures raised.Some? <==> CleanRow(old(row), today).Raised?
      ensures raised.Some? ==> raised.value == CleanRow(old(row), today).error && row == old(row)
      ensures raised.None? ==> row == CleanRow(old(row), today).row
    {
      var outcome := CleanRow(row, today);
      if outcome.Raised? {
        raised := Some(outcome.error);
      } else {
        if row.Listing? {
          row := row.(condition := outcome.row.condition);
        }
        raised := None;
      }
    }

    /** `full_clean()`: the field validators, then `clean()`; the errors together. */
    method FullClean(today: Date) returns (errors: seq<Error>)
      modifies this
      ensures errors == FullCleanErrors(old(row), today)
      ensures row == AfterFullClean(old(row), today)
    {
      errors := FieldErrors(row, today);
      var raised := Clean(today);
      if raised.Some? {
        errors := errors + [raised.value];
      }
    }

    /** `CleanSaveMixin.save`: `full_clean()` first; the row is written only if it raised nothing. */
    method Save(db: Database, today: Date) returns (saved: bool)
      modifies this, db
      ensures saved <==> FullCleanErrors(old(row), today) == []
      ensures row == AfterFullClean(old(row), today)
      ensures db.rows == if saved then old(db.rows) + [row] else old(db.rows)
    {
      var errors := FullClean(today);
      saved := errors == [];
      if saved {
        db.Insert(row);
      }
    }
  }

  // ---------------------------------------------------------------
  // Properties of validation
  // ---------------------------------------------------------------

  /**
   * Experience and course dates pass `clean()` iff neither lies in the
   * future and, when both are present, the end is not before the start.
   */
  lemma SpanClean(start: Option<Date>, end: Option<Date>, today: Date, row: Row)
    ensures CleanSpan(start, end, today, row).Passed? <==>
      (start.None? || !Before(today, start.value))
      && (end.None? || !Before(today, end.value))
      && (start.Some? && end.Some? ==> !Before(end.value, start.value))
  {
  }

  /**
   * A listing passes `clean()` iff it is not published in the future and its
   * condition is empty or capitalises to "Bueno" or "Regular"; the condition
   * kept is the capitalised one, and normalising it again changes nothing.
   */
  lemma ListingClean(published: Option<Date>, condition: string, price: Option<real>, today: Date)
    ensures var c := CleanRow(Listing(published, condition, price), today);
      (c.Passed? <==> NoFuture(published, today) == Valid && (condition == "" || Capitalize(condition) in Conditions))
      && (c.Passed? ==> c.row.condition == (if condition == "" then "" else Capitalize(condition)))
      && (c.Passed? ==> c.row.condition == "" || c.row.condition in Conditions)
      && (c.Passed? ==> Capitalize(c.row.condition) == c.row.condition)
  {
    var c := CleanRow(Listing(published, condition, price), today);
    if condition == "" {
      assert Capitalize(condition) == condition;
    } else {
      CapitalizeIdempotent(condition);
    }
  }

  /** The outcome of a listing's `clean()` does not depend on the letter case of its condition. */
  lemma ListingConditionCase(published: Option<Date>, condition: string, price: Option<real>, today: Date)
    ensures CleanRow(Listing(published, condition, price), today) == CleanRow(Listing(published, Lower(condition), price), today)
  {
    CapitalizeIgnoresCase(condition);
  }

  /** A profile with no validation errors has a birth date, if any, in the past and an age within 18..100. */
  lemma ProfileValid(birth: Option<Date>, idNumber: Option<string>, mobile: Option<string>, today: Date)
    requires FullCleanErrors(Profile(birth, idNumber, mobile), today) == []
    ensures birth.Some? ==> !Before(today, birth.value) && 18 <= Age(birth.value, today) <= 100
  {
    if birth.Some? {
      AdultBornInThePast(birth.value, today);
    }
  }

  /**
   * A record that validates is left by validation in a state that validates
   * again, unchanged: saving what was saved is a no-op for validation.
   */
  lemma {:induction false} ValidationIsStable(row: Row, today: Date)
    requires FullCleanErrors(row, today) == []
    ensures FullCleanErrors(AfterFullClean(row, today), today) == []
    ensures AfterFullClean(AfterFullClean(row, today), today) == AfterFullClean(row, today)
  {
    if row.Listing? {
      ListingClean(row.published, row.condition, row.price, today);
      var c := CleanRow(row, today).row;
      assert c == row.(condition := c.condition);
      ListingClean(c.published, c.condition, c.price, today);
    }
  }

  /**
   * An experience or course record whose end precedes its start, or with a
   * date in the future, collects an error, so `save` never writes it.
   */
  lemma InvalidSpanNeverSaved(row: Row, today: Date)
    requires row.Experience? || row.Course?
    requires (row.start.Some? && row.end.Some? && Before(row.end.value, row.start.value))
      || (row.start.Some? && Before(today, row.start.value))
      || (row.end.Some? && Before(today, row.end.value))
    ensures FullCleanErrors(row, today) != []
    ensures AfterFullClean(row, today) == row
  {
    assert CleanRow(row, today).Raised?;
  }

  /** A birth date in the future is reported as such, ahead of the age bounds it also fails. */
  lemma FutureBirthReportedFirst(birth: Date, idNumber: Option<string>, mobile: Option<string>, today: Date)
    requires Before(today, birth)
    ensures CleanRow(Profile(Some(birth), idNumber, mobile), today) == Raised(FutureDate)
    ensures AgeCheck(Some(birth), today) == Invalid(UnderAge(Age(birth, today)))
  {
    AgeCountsBirthdays(birth, today, 0);
    assert Date(birth.year + 0, birth.month, birth.day) == birth;
  }
}
