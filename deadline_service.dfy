/**
 * The deadline store (src/services/deadline.service.ts): the parser for the
 * two input forms, the urgency classification, and the list of deadlines
 * with its three operations.
 *
 * The clock is a parameter: `today` is the day number of the current local
 * date, and every due date is the day number of a local midnight, so the day
 * difference the source computes with `Math.ceil` over milliseconds is the
 * plain difference of the two day numbers.
 */
module Service {
  import opened Wrappers
  import opened Text
  import opened Calendar
  import opened DeadlineModel

  // ---------------------------------------------------------------------
  // Input parser
  // ---------------------------------------------------------------------

  /** The unit word that marks the relative form ("N dias"). */
  const DaysWord: string := "dias"

  /** The text both grammars are matched against: trimmed, then lower-cased. */
  function Normalize(input: string): string {
    ToLower(Trim(input))
  }

  /**
   * `s` matches `^(\d{1,2})\/(\d{1,2})\/(\d{4})$` with a day group of `a`
   * digits and a month group of `b` digits.
   */
  predicate DateShapeAt(s: string, a: int, b: int) {
    && 1 <= a <= 2 && 1 <= b <= 2
    && |s| == a + b + 6
    && AllDigits(s[..a]) && s[a] == '/'
    && AllDigits(s[a + 1..a + 1 + b]) && s[a + 1 + b] == '/'
    && AllDigits(s[a + b + 2..])
  }

  /** The day, month and year groups of a match, read as numbers. */
  function FieldsAt(s: string, a: int, b: int): Date
    requires DateShapeAt(s, a, b)
  {
    Date(Value(s[a + b + 2..]), Value(s[a + 1..a + 1 + b]), Value(s[..a]))
  }

  predicate DateShaped(s: string) {
    exists a, b | 1 <= a <= 2 && 1 <= b <= 2 :: DateShapeAt(s, a, b)
  }

  /** The pattern has at most one way to match a string. */
  lemma {:induction false} DateShapeUnique(s: string, a: int, b: int, a': int, b': int)
    requires DateShapeAt(s, a, b) && DateShapeAt(s, a', b')
    ensures a == a' && b == b'
  {
  }

  /** The date pattern: the groups of its first match, if any. */
  function MatchDate(s: string): Option<Date> {
    if DateShapeAt(s, 1, 1) then Some(FieldsAt(s, 1, 1))
    else if DateShapeAt(s, 1, 2) then Some(FieldsAt(s, 1, 2))
    else if DateShapeAt(s, 2, 1) then Some(FieldsAt(s, 2, 1))
    else if DateShapeAt(s, 2, 2) then Some(FieldsAt(s, 2, 2))
    else None
  }

  /**
   * The date pattern gives `None` exactly when it does not match, and
   * otherwise the (year, month, day) its groups spell, whatever their
   * lengths.
   */
  lemma {:induction false} MatchDateSpec(s: string)
    ensures MatchDate(s).Some? <==> DateShaped(s)
    ensures forall a, b :: DateShapeAt(s, a, b) ==> MatchDate(s) == Some(FieldsAt(s, a, b))
  {
    forall a, b | DateShapeAt(s, a, b) ensures MatchDate(s) == Some(FieldsAt(s, a, b)) {
      if DateShapeAt(s, 1, 1) {
        DateShapeUnique(s, a, b, 1, 1);
      } else if DateShapeAt(s, 1, 2) {
        DateShapeUnique(s, a, b, 1, 2);
      } else if DateShapeAt(s, 2, 1) {
        DateShapeUnique(s, a, b, 2, 1);
      }
    }
  }

  /** A string ending in the unit word cannot end in the four year digits. */
  lemma {:induction false} RelativeIsNotDateShaped(t: string)
    ensures EndsWith(t, DaysWord) ==> !DateShaped(t)
  {
    DateShapeEndsWithDigit(t);
    if EndsWith(t, DaysWord) {
      assert t[|t| - 1] == t[|t| - 4..][3];
    }
  }

  /** Every match of the date pattern ends in a digit of the year. */
  lemma {:induction false} DateShapeEndsWithDigit(s: string)
    ensures forall a, b :: DateShapeAt(s, a, b) ==> IsDigit(s[|s| - 1])
  {
    forall a, b | DateShapeAt(s, a, b) ensures IsDigit(s[|s| - 1]) {
      assert s[a + b + 2..][3] == s[|s| - 1];
    }
  }

  /**
   * The relative branch: a text ending in "dias" whose leading integer N is
   * not negative gives `today + N`.
   */
  function ParseRelative(t: string, today: int): Option<int> {
    if EndsWith(t, DaysWord) then
      match ParseInt(t)
      case Some(n) => if n >= 0 then Some(today + n) else None
      case None => None
    else None
  }

  /** The absolute branch: a date that matches the pattern and exists. */
  function ParseAbsolute(t: string): Option<int> {
    match MatchDate(t)
    case Some(d) => if ValidDate(d) then Some(DayNumber(d)) else None
    case None => None
  }

  /**
   * `parseDeadlineInput`: the relative form first, then the date pattern.
   * A relative form that fails (no leading integer, or a negative one) falls
   * through to the date pattern.
   */
  function ParseDeadlineInput(input: string, today: int): Option<int> {
    var t := Normalize(input);
    var relative := ParseRelative(t, today);
    if relative.Some? then relative else ParseAbsolute(t)
  }

  /**
   * Each normalised text is read by one branch only: the date pattern never
   * matches a text ending in "dias", so a failed relative form yields `None`
   * and every other text is up to the date pattern.
   */
  lemma {:induction false} ParseDispatch(input: string, today: int)
    ensures EndsWith(Normalize(input), DaysWord) ==>
      ParseDeadlineInput(input, today) == ParseRelative(Normalize(input), today)
    ensures !EndsWith(Normalize(input), DaysWord) ==>
      ParseDeadlineInput(input, today) == ParseAbsolute(Normalize(input))
  {
    RelativeIsNotDateShaped(Normalize(input));
    MatchDateSpec(Normalize(input));
  }

  /**
   * The parser gives `None` exactly when neither form applies: a text ending
   * in "dias" without a non-negative leading integer, or any other text that
   * the date pattern does not match or that names a date that does not exist.
   */
  lemma {:induction false} ParseRefused(input: string, today: int)
    ensures var t := Normalize(input);
      ParseDeadlineInput(input, today) == None <==>
        if EndsWith(t, DaysWord) then ParseInt(t).None? || ParseInt(t).value < 0
        else MatchDate(t).None? || !ValidDate(MatchDate(t).value)
  {
    ParseDispatch(input, today);
  }

  /**
   * White space around the input is ignored: a padded text parses like the
   * text without its padding.
   */
  lemma {:induction false} ParsePadded(pre: string, core: string, post: string, today: int)
    requires AllWhitespace(pre) && AllWhitespace(post)
    requires core != [] && !IsWhitespace(core[0]) && !IsWhitespace(core[|core| - 1])
    ensures ParseDeadlineInput(pre + core + post, today) == ParseDeadlineInput(core, today)
  {
    TrimPadded(pre, core, post);
    TrimClean(core);
  }

  /**
   * The relative form as users type it: an optional sign, digits, then any
   * text that starts with a non-digit and ends with "dias" in any letter
   * case. A non-negative count N gives today + N days; "-0" counts as zero;
   * any other negative count gives `None`.
   */
  lemma {:induction false} RelativeForm(sign: string, ds: string, rest: string, today: int)
    requires sign == "" || sign == "+" || sign == "-"
    requires ds != [] && AllDigits(ds)
    requires rest != [] && !IsDigit(rest[0]) && EndsWith(ToLower(rest), DaysWord)
    ensures ParseDeadlineInput(sign + ds + rest, today)
         == if sign == "-" && Value(ds) != 0 then None else Some(today + Value(ds))
  {
    var core := sign + ds + rest;
    RelativeCoreEnds(sign, ds, rest);
    TrimClean(core);
    ToLowerRelative(sign, ds, rest);
    RelativeBranch(sign, ds, ToLower(rest), today);
    ParseDispatch(core, today);
  }

  /** "3 dias" is due three days from today, which is an upcoming deadline. */
  lemma {:induction false} ThreeDays(today: int)
    ensures ParseDeadlineInput("3 dias", today) == Some(today + 3)
    ensures GetDeadlineStatus(today + 3, today) == Upcoming
  {
    var ds := "3";
    assert AllDigits(ds) && Value(ds) == 3;
    assert ToLower(" dias") == " dias";
    assert "" + ds + " dias" == "3 dias";
    RelativeForm("", ds, " dias", today);
  }

  lemma {:induction false} RelativeCoreEnds(sign: string, ds: string, rest: string)
    requires sign == "" || sign == "+" || sign == "-"
    requires ds != [] && AllDigits(ds)
    requires rest != [] && EndsWith(ToLower(rest), DaysWord)
    ensures var core := sign + ds + rest;
      core != [] && !IsWhitespace(core[0]) && !IsWhitespace(core[|core| - 1])
  {
    var core := sign + ds + rest;
    assert core[0] == if sign == "" then ds[0] else sign[0];
    assert ToLower(rest)[|rest| - 1] == ToLower(rest)[|rest| - 4..][3];
    assert core[|core| - 1] == rest[|rest| - 1];
  }

  lemma {:induction false} ToLowerRelative(sign: string, ds: string, rest: string)
    requires sign == "" || sign == "+" || sign == "-"
    requires AllDigits(ds)
    requires rest != [] && !IsDigit(rest[0])
    ensures ToLower(sign + ds + rest) == sign + ds + ToLower(rest)
    ensures ToLower(rest) != [] && !IsDigit(ToLower(rest)[0])
  {
    ToLowerConcat(sign + ds, rest);
    ToLowerKeeps(sign + ds);
  }

  lemma {:induction false} RelativeBranch(sign: string, ds: string, rest: string, today: int)
    requires sign == "" || sign == "+" || sign == "-"
    requires ds != [] && AllDigits(ds)
    requires rest != [] && !IsDigit(rest[0]) && EndsWith(rest, DaysWord)
    ensures EndsWith(sign + ds + rest, DaysWord)
    ensures ParseRelative(sign + ds + rest, today)
         == if sign == "-" && Value(ds) != 0 then None else Some(today + Value(ds))
  {
    EndsWithKept(sign + ds, rest);
    LeadingInteger(sign, ds, rest);
    var n := if sign == "-" then -(Value(ds) as int) else Value(ds);
    ParseRelativeOf(sign + ds + rest, n, today);
    SignedCount(sign, ds, n, today);
  }

  lemma {:induction false} SignedCount(sign: string, ds: string, n: int, today: int)
    requires sign == "" || sign == "+" || sign == "-"
    requires AllDigits(ds)
    requires n == if sign == "-" then -(Value(ds) as int) else Value(ds)
    ensures (if n >= 0 then Some(today + n) else None)
         == if sign == "-" && Value(ds) != 0 then None else Some(today + Value(ds))
  {
  }

  lemma {:induction false} ParseRelativeOf(t: string, n: int, today: int)
    requires EndsWith(t, DaysWord)
    requires ParseInt(t) == Some(n)
    ensures ParseRelative(t, today) == if n >= 0 then Some(today + n) else None
  {
  }

  lemma {:induction false} EndsWithKept(front: string, rest: string)
    requires EndsWith(rest, DaysWord)
    ensures EndsWith(front + rest, DaysWord)
  {
    var t := front + rest;
    assert t[|t| - 4..] == rest[|rest| - 4..];
  }

  lemma {:induction false} LeadingInteger(sign: string, ds: string, rest: string)
    requires sign == "" || sign == "+" || sign == "-"
    requires ds != [] && AllDigits(ds)
    requires rest == [] || !IsDigit(rest[0])
    ensures ParseInt(sign + ds + rest) == Some(if sign == "-" then -(Value(ds) as int) else Value(ds))
  {
    var t := sign + ds + rest;
    assert t[0] == if sign == "" then ds[0] else sign[0];
    TrimStartClean(t);
    ParseSignedOf(sign, ds, rest);
  }

  /**
   * The absolute form: a one- or two-digit day and month and a four-digit
   * year, separated by slashes. It parses to that date's day number when the
   * date exists (and its year is at least 100), and to `None` otherwise.
   */
  lemma {:induction false} AbsoluteForm(ds: string, ms: string, ys: string, today: int)
    requires 1 <= |ds| <= 2 && 1 <= |ms| <= 2 && |ys| == 4
    requires AllDigits(ds) && AllDigits(ms) && AllDigits(ys)
    ensures var d := Date(Value(ys), Value(ms), Value(ds));
      ParseDeadlineInput(ds + "/" + ms + "/" + ys, today)
        == if ValidDate(d) then Some(DayNumber(d)) else None
  {
    var core := ds + "/" + ms + "/" + ys;
    DateCoreEnds(ds, ms, ys);
    TrimClean(core);
    ToLowerKeeps(core);
    AbsoluteBranch(ds, ms, ys);
    ParseDispatch(core, today);
  }

  lemma {:induction false} DateCoreEnds(ds: string, ms: string, ys: string)
    requires 1 <= |ds| && |ys| == 4
    requires AllDigits(ds) && AllDigits(ms) && AllDigits(ys)
    ensures var core := ds + "/" + ms + "/" + ys;
      && !IsWhitespace(core[0]) && !IsWhitespace(core[|core| - 1])
      && forall i :: 0 <= i < |core| ==> !IsUpper(core[i])
  {
    var core := ds + "/" + ms + "/" + ys;
    assert core[0] == ds[0];
    assert core[|core| - 1] == ys[3];
    forall i | 0 <= i < |core| ensures IsDigit(core[i]) || core[i] == '/' {
      var a, b := |ds|, |ms|;
      if i < a {
        assert core[i] == ds[i];
      } else if a < i < a + 1 + b {
        assert core[i] == ms[i - a - 1];
      } else if a + 1 + b < i {
        assert core[i] == ys[i - a - b - 2];
      }
    }
  }

  lemma {:induction false} AbsoluteBranch(ds: string, ms: string, ys: string)
    requires 1 <= |ds| <= 2 && 1 <= |ms| <= 2 && |ys| == 4
    requires AllDigits(ds) && AllDigits(ms) && AllDigits(ys)
    ensures !EndsWith(ds + "/" + ms + "/" + ys, DaysWord)
    ensures var d := Date(Value(ys), Value(ms), Value(ds));
      ParseAbsolute(ds + "/" + ms + "/" + ys) == if ValidDate(d) then Some(DayNumber(d)) else None
  {
    var t := ds + "/" + ms + "/" + ys;
    DateText(ds, ms, ys);
    RelativeIsNotDateShaped(t);
    ParseAbsoluteAt(t, |ds|, |ms|);
  }

  /** How the pattern reads a day, a month and a year joined by slashes. */
  lemma {:induction false} DateText(ds: string, ms: string, ys: string)
    requires 1 <= |ds| <= 2 && 1 <= |ms| <= 2 && |ys| == 4
    requires AllDigits(ds) && AllDigits(ms) && AllDigits(ys)
    ensures var t := ds + "/" + ms + "/" + ys;
      && DateShapeAt(t, |ds|, |ms|)
      && FieldsAt(t, |ds|, |ms|) == Date(Value(ys), Value(ms), Value(ds))
  {
    var t := ds + "/" + ms + "/" + ys;
    var a, b := |ds|, |ms|;
    assert t[..a] == ds;
    assert t[a + 1..a + 1 + b] == ms;
    assert t[a + b + 2..] == ys;
  }

  lemma {:induction false} ParseAbsoluteAt(t: string, a: int, b: int)
    requires DateShapeAt(t, a, b)
    ensures ParseAbsolute(t)
         == if ValidDate(FieldsAt(t, a, b)) then Some(DayNumber(FieldsAt(t, a, b))) else None
  {
    MatchDateSpec(t);
  }

  /** A date written as DD/MM/YYYY, with leading zeros. */
  function FormatDate(d: Date): string
    requires 0 <= d.day < 100 && 0 <= d.month < 100 && 0 <= d.year < 10000
  {
    Padded(d.day, 2) + "/" + Padded(d.month, 2) + "/" + Padded(d.year, 4)
  }

  /**
   * Writing a date as DD/MM/YYYY and parsing it gives back that very date
   * when it exists; a day or month that does not exist, or a year below 100,
   * gives `None`.
   */
  lemma {:induction false} AbsoluteRoundTrip(d: Date, today: int)
    requires 0 <= d.day < 100 && 0 <= d.month < 100 && 0 <= d.year < 10000
    ensures ParseDeadlineInput(FormatDate(d), today)
         == if ValidDate(d) then Some(DayNumber(d)) else None
  {
    AbsoluteForm(Padded(d.day, 2), Padded(d.month, 2), Padded(d.year, 4), today);
  }

  /**
   * Days that do not exist in their month are refused rather than rolled
   * over into the next month: 31/02/2024, 29/02/2023 and day 00.
   */
  lemma {:induction false} ImpossibleDays(today: int)
    ensures ParseDeadlineInput(FormatDate(Date(2024, 2, 31)), today) == None
    ensures ParseDeadlineInput(FormatDate(Date(2023, 2, 29)), today) == None
    ensures ParseDeadlineInput(FormatDate(Date(2024, 5, 0)), today) == None
  {
    AbsoluteRoundTrip(Date(2024, 2, 31), today);
    AbsoluteRoundTrip(Date(2023, 2, 29), today);
    AbsoluteRoundTrip(Date(2024, 5, 0), today);
  }

  /**
   * Month 00, month 13, and a year such as 0099 that `Date` would move into
   * the twentieth century are refused.
   */
  lemma {:induction false} ImpossibleMonthsAndYears(today: int)
    ensures ParseDeadlineInput(FormatDate(Date(2024, 0, 10)), today) == None
    ensures ParseDeadlineInput(FormatDate(Date(2024, 13, 10)), today) == None
    ensures ParseDeadlineInput(FormatDate(Date(99, 5, 10)), today) == None
  {
    AbsoluteRoundTrip(Date(2024, 0, 10), today);
    AbsoluteRoundTrip(Date(2024, 13, 10), today);
    AbsoluteRoundTrip(Date(99, 5, 10), today);
  }

  /** The leap day of a leap year is accepted. */
  lemma {:induction false} LeapDayAccepted(today: int)
    ensures ParseDeadlineInput(FormatDate(Date(2024, 2, 29)), today).Some?
  {
    AbsoluteRoundTrip(Date(2024, 2, 29), today);
  }

  // ---------------------------------------------------------------------
  // Classification
  // ---------------------------------------------------------------------

  /** Whole days from `today` to `dueDate`; negative once the date has passed. */
  function DayDifference(dueDate: int, today: int): int {
    dueDate - today
  }

  /** The four-way split on the day difference. */
  function Classify(diffDays: int): (s: DeadlineStatus)
    ensures s == Overdue <==> diffDays < 0
    ensures s == Due <==> diffDays == 0
    ensures s == Upcoming <==> 1 <= diffDays <= 7
    ensures s == Safe <==> diffDays > 7
  {
    if diffDays < 0 then Overdue
    else if diffDays == 0 then Due
    else if diffDays <= 7 then Upcoming
    else Safe
  }

  /**
   * `getDeadlineStatus`, with the current date as a parameter: overdue once
   * the due day has passed, due on the day itself, upcoming within the next
   * seven days, safe after that.
   */
  function GetDeadlineStatus(dueDate: int, today: int): (s: DeadlineStatus)
    ensures s == Overdue <==> dueDate < today
    ensures s == Due <==> dueDate == today
    ensures s == Upcoming <==> today < dueDate <= today + 7
    ensures s == Safe <==> today + 7 < dueDate
  {
    Classify(DayDifference(dueDate, today))
  }

  /** How pressing a status is: overdue highest, safe lowest. */
  function Urgency(s: DeadlineStatus): nat {
    match s
    case Overdue => 3
    case Due => 2
    case Upcoming => 1
    case Safe => 0
  }

  /** A later due date is never more urgent. */
  lemma {:induction false} ClassifyMonotonic(d1: int, d2: int)
    requires d1 <= d2
    ensures Urgency(Classify(d1)) >= Urgency(Classify(d2))
  {
  }

  // ---------------------------------------------------------------------
  // The list of deadlines
  // ---------------------------------------------------------------------

  /** The record `addDeadline` appends for a parsed due date. */
  function NewDeadline(id: int, subject: string, recipient: string, input: string,
                       dueDate: int, today: int): (d: Deadline)
  {
    Deadline(id, subject, recipient, dueDate, input, GetDeadlineStatus(dueDate, today))
  }

  /** The list without the records whose id is `id`, in the original order. */
  function Without(s: seq<Deadline>, id: int): seq<Deadline> {
    if s == [] then []
    else (if s[0].id == id then [] else [s[0]]) + Without(s[1..], id)
  }

  /**
   * Deleting removes every record with the id, keeps every other record,
   * and adds nothing.
   */
  lemma {:induction false} WithoutSpec(s: seq<Deadline>, id: int)
    ensures forall x :: x in Without(s, id) <==> x in s && x.id != id
  {
    if s != [] {
      WithoutSpec(s[1..], id);
      assert s == [s[0]] + s[1..];
    }
  }

  /** Filtering distributes over concatenation, so relative order is kept. */
  lemma {:induction false} WithoutConcat(a: seq<Deadline>, b: seq<Deadline>, id: int)
    ensures Without(a + b, id) == Without(a, id) + Without(b, id)
  {
    if a != [] {
      var ab := a + b;
      assert ab[0] == a[0];
      assert ab[1..] == a[1..] + b;
      WithoutConcat(a[1..], b, id);
      var h: seq<Deadline> := if a[0].id == id then [] else [a[0]];
      assert Without(ab, id) == h + (Without(a[1..], id) + Without(b, id));
      assert Without(a, id) == h + Without(a[1..], id);
    } else {
      assert a + b == b;
    }
  }

  /** Deleting an id that no record carries leaves the list as it was. */
  lemma {:induction false} WithoutAbsent(s: seq<Deadline>, id: int)
    requires forall i :: 0 <= i < |s| ==> s[i].id != id
    ensures Without(s, id) == s
  {
    if s != [] {
      WithoutAbsent(s[1..], id);
    }
  }

  /** Deleting records keeps a list whose statuses are current current. */
  lemma {:induction false} WithoutCurrent(s: seq<Deadline>, id: int, today: int)
    requires AllCurrent(s, today)
    ensures AllCurrent(Without(s, id), today)
  {
    var r := Without(s, id);
    WithoutSpec(s, id);
    forall i | 0 <= i < |r| ensures r[i].status == GetDeadlineStatus(r[i].dueDate, today) {
      assert r[i] in r;
      var j :| 0 <= j < |s| && s[j] == r[i];
    }
  }

  /** Every record carries the status its due date has on `today`. */
  predicate AllCurrent(s: seq<Deadline>, today: int) {
    forall i :: 0 <= i < |s| ==> s[i].status == GetDeadlineStatus(s[i].dueDate, today)
  }

  /** The list with every status recomputed for `today`. */
  function Refreshed(s: seq<Deadline>, today: int): (r: seq<Deadline>) {
    seq(|s|, i requires 0 <= i < |s| => s[i].(status := GetDeadlineStatus(s[i].dueDate, today)))
  }

  /**
   * After a refresh every status is current, and each record keeps its
   * place, id, subject, recipient, due date and original input.
   */
  lemma {:induction false} RefreshedIsCurrent(s: seq<Deadline>, today: int)
    ensures |Refreshed(s, today)| == |s|
    ensures AllCurrent(Refreshed(s, today), today)
    ensures forall i :: 0 <= i < |s| ==>
      Refreshed(s, today)[i] == s[i].(status := Refreshed(s, today)[i].status)
  {
  }

  /** A refresh changes nothing exactly when every status is already current. */
  lemma {:induction false} RefreshedUnchangedIffCurrent(s: seq<Deadline>, today: int)
    ensures Refreshed(s, today) == s <==> AllCurrent(s, today)
  {
    if AllCurrent(s, today) {
      assert forall i :: 0 <= i < |s| ==> Refreshed(s, today)[i] == s[i];
    }
  }

  /** Refreshing twice for the same day is refreshing once. */
  lemma {:induction false} RefreshedIdempotent(s: seq<Deadline>, today: int)
    ensures Refreshed(Refreshed(s, today), today) == Refreshed(s, today)
  {
    RefreshedIsCurrent(s, today);
    RefreshedUnchangedIffCurrent(Refreshed(s, today), today);
  }

  /** Appending a record whose status is current keeps the list current. */
  lemma {:induction false} AppendCurrent(s: seq<Deadline>, d: Deadline, today: int)
    requires AllCurrent(s, today)
    requires d.status == GetDeadlineStatus(d.dueDate, today)
    ensures AllCurrent(s + [d], today)
  {
  }

  /**
   * The store. `deadlines` is the signal's list; `notifications` counts the
   * writes to that signal, each of which the persistence effect turns into a
   * rewrite of the stored copy.
   */
  class DeadlineService {
    var deadlines: seq<Deadline>
    var notifications: nat

    /**
     * Starts from the list read back from storage (empty when there was none)
     * and classifies it for `today`.
     */
    constructor (stored: seq<Deadline>, today: int)
      ensures deadlines == Refreshed(stored, today)
      ensures AllCurrent(deadlines, today)
      ensures notifications == 0
    {
      deadlines := Refreshed(stored, today);
      notifications := 0;
      RefreshedIsCurrent(stored, today);
    }

    /**
     * `addDeadline`: on input that does not parse, report failure and change
     * nothing; otherwise append the new record and report success.
     */
    method AddDeadline(subject: string, recipient: string, deadlineInput: string,
                       id: int, today: int) returns (success: bool)
      modifies this
      ensures success <==> ParseDeadlineInput(deadlineInput, today).Some?
      ensures !success ==>
        deadlines == old(deadlines) && notifications == old(notifications)
      ensures success ==>
        && deadlines == old(deadlines) + [NewDeadline(id, subject, recipient, deadlineInput,
                                                      ParseDeadlineInput(deadlineInput, today).value, today)]
        && notifications == old(notifications) + 1
      ensures old(AllCurrent(deadlines, today)) ==> AllCurrent(deadlines, today)
    {
      var dueDate := ParseDeadlineInput(deadlineInput, today);
      if dueDate.None? {
        return false;
      }
      var newDeadline := NewDeadline(id, subject, recipient, deadlineInput, dueDate.value, today);
      if AllCurrent(deadlines, today) {
        AppendCurrent(deadlines, newDeadline, today);
      }
      deadlines := deadlines + [newDeadline];
      notifications := notifications + 1;
      return true;
    }

    /**
     * `deleteDeadline`: keep the records whose id differs. The filter always
     * yields a fresh list, so the signal is written even when nothing matched.
     */
    method DeleteDeadline(id: int)
      modifies this
      ensures deadlines == Without(old(deadlines), id)
      ensures notifications == old(notifications) + 1
      ensures forall today :: old(AllCurrent(deadlines, today)) ==> AllCurrent(deadlines, today)
    {
      ghost var before := deadlines;
      deadlines := Without(deadlines, id);
      notifications := notifications + 1;
      forall today | AllCurrent(before, today) ensures AllCurrent(deadlines, today) {
        WithoutCurrent(before, id, today);
      }
    }

    /**
     * `updateStatuses`: recompute every status for `today`; write the list
     * back, and so notify, only if some status actually changed.
     */
    method UpdateStatuses(today: int)
      modifies this
      ensures deadlines == Refreshed(old(deadlines), today)
      ensures AllCurrent(deadlines, today)
      ensures notifications == old(notifications) + if AllCurrent(old(deadlines), today) then 0 else 1
    {
      var changed := false;
      var updated: seq<Deadline> := [];
      var i := 0;
      while i < |deadlines|
        invariant 0 <= i <= |deadlines|
        invariant updated == Refreshed(deadlines[..i], today)
        invariant changed <==> !AllCurrent(deadlines[..i], today)
      {
        var deadline := deadlines[i];
        var newStatus := GetDeadlineStatus(deadline.dueDate, today);
        assert deadlines[..i + 1] == deadlines[..i] + [deadline];
        if newStatus != deadline.status {
          changed := true;
          updated := updated + [deadline.(status := newStatus)];
        } else {
          updated := updated + [deadline];
        }
        i := i + 1;
      }
      assert deadlines[..i] == deadlines;
      RefreshedIsCurrent(deadlines, today);
      if changed {
        deadlines := updated;
        notifications := notifications + 1;
      } else {
        RefreshedUnchangedIffCurrent(deadlines, today);
      }
    }
  }
}
