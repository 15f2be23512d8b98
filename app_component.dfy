/**
 * The form and the derived views of the root component
 * (src/app/app.component.ts): the submit handler over the three form fields
 * and the error message, the list sorted by due date, and the two labels
 * shown on each card.
 */
module App {
  import opened Wrappers
  import opened Text
  import opened DeadlineModel
  import opened Service

  const RequiredFieldsMessage: string := "Todos os campos s\U{E3}o obrigat\U{F3}rios."
  const InvalidFormatMessage: string :=
    "Formato de prazo inv\U{E1}lido. Use \"X dias\" ou \"DD/MM/AAAA\"."

  /** A field that `!value.trim()` treats as missing. */
  predicate Blank(value: string) {
    Trim(value) == []
  }

  predicate AnyBlank(subject: string, recipient: string, deadlineInput: string) {
    Blank(subject) || Blank(recipient) || Blank(deadlineInput)
  }

  // ---------------------------------------------------------------------
  // Sorting by due date
  // ---------------------------------------------------------------------

  /** Each record is due no earlier than the one before it. */
  predicate SortedByDueDate(s: seq<Deadline>) {
    forall i :: 0 < i < |s| ==> s[i - 1].dueDate <= s[i].dueDate
  }

  /** In a sorted list every record is due no earlier than any record before it. */
  lemma {:induction false} SortedOrdered(s: seq<Deadline>, i: int, j: int)
    requires SortedByDueDate(s)
    requires 0 <= i <= j < |s|
    ensures s[i].dueDate <= s[j].dueDate
    decreases j - i
  {
    if i < j {
      SortedOrdered(s, i, j - 1);
    }
  }

  /** The records of `s` due on day `k`, in their order in `s`. */
  function DueOn(s: seq<Deadline>, k: int): seq<Deadline> {
    if s == [] then [] else (if s[0].dueDate == k then [s[0]] else []) + DueOn(s[1..], k)
  }

  /**
   * Places `x` in front of the first record that is not due earlier, so it
   * stays ahead of every record due on the same day.
   */
  function InsertByDueDate(x: Deadline, s: seq<Deadline>): (r: seq<Deadline>)
    requires SortedByDueDate(s)
    ensures r != [] && (r[0] == x || (s != [] && r[0] == s[0]))
    ensures SortedByDueDate(r)
  {
    if s == [] || x.dueDate <= s[0].dueDate then
      SortedCons(x, s);
      [x] + s
    else
      assert s == [s[0]] + s[1..];
      SortedTail(s);
      var t := InsertByDueDate(x, s[1..]);
      SortedCons(s[0], t);
      [s[0]] + t
  }

  /** A record due no later than the head of a sorted list can go in front. */
  lemma {:induction false} SortedCons(x: Deadline, s: seq<Deadline>)
    requires SortedByDueDate(s)
    requires s == [] || x.dueDate <= s[0].dueDate
    ensures SortedByDueDate([x] + s)
  {
    var r := [x] + s;
    forall i | 0 < i < |r| ensures r[i - 1].dueDate <= r[i].dueDate {
      if i > 1 {
        assert r[i - 1] == s[i - 2] && r[i] == s[i - 1];
      }
    }
  }

  /** Inserting `x` puts it ahead of the records already due on its day. */
  lemma {:induction false} InsertDueOn(x: Deadline, s: seq<Deadline>, k: int)
    requires SortedByDueDate(s)
    ensures DueOn(InsertByDueDate(x, s), k) == (if x.dueDate == k then [x] else []) + DueOn(s, k)
  {
    var r := InsertByDueDate(x, s);
    var front: seq<Deadline> := if x.dueDate == k then [x] else [];
    if s == [] || x.dueDate <= s[0].dueDate {
      assert r == [x] + s;
      assert r[1..] == s;
    } else {
      SortedTail(s);
      var t := InsertByDueDate(x, s[1..]);
      assert r == [s[0]] + t;
      assert r[1..] == t;
      InsertDueOn(x, s[1..], k);
      var head: seq<Deadline> := if s[0].dueDate == k then [s[0]] else [];
      assert DueOn(r, k) == head + (front + DueOn(s[1..], k));
      assert DueOn(s, k) == head + DueOn(s[1..], k);
      if x.dueDate == k {
        assert head == [];
      } else {
        assert front == [];
      }
    }
  }

  /**
   * The comparator `a.dueDate - b.dueDate` under a sort: ascending by due
   * date, and a permutation of the list.
   */
  function SortByDueDate(s: seq<Deadline>): (r: seq<Deadline>)
    ensures SortedByDueDate(r)
  {
    if s == [] then []
    else InsertByDueDate(s[0], SortByDueDate(s[1..]))
  }

  /** Inserting adds `x` and keeps every record already there. */
  lemma {:induction false} InsertPermutes(x: Deadline, s: seq<Deadline>)
    requires SortedByDueDate(s)
    ensures multiset(InsertByDueDate(x, s)) == multiset(s) + multiset{x}
  {
    if s != [] && s[0].dueDate < x.dueDate {
      SortedTail(s);
      InsertPermutes(x, s[1..]);
      assert s == [s[0]] + s[1..];
    }
  }

  /** The sorted list is a permutation of the list. */
  lemma {:induction false} SortPermutes(s: seq<Deadline>)
    ensures multiset(SortByDueDate(s)) == multiset(s)
  {
    if s != [] {
      SortPermutes(s[1..]);
      InsertPermutes(s[0], SortByDueDate(s[1..]));
      assert s == [s[0]] + s[1..];
    }
  }

  /** The sort is stable: records due on the same day keep their order. */
  lemma {:induction false} SortStable(s: seq<Deadline>, k: int)
    ensures DueOn(SortByDueDate(s), k) == DueOn(s, k)
  {
    if s != [] {
      SortStable(s[1..], k);
      InsertDueOn(s[0], SortByDueDate(s[1..]), k);
    }
  }

  /**
   * Sortedness and stability pin the result down: any list that is sorted
   * by due date and keeps the same-day order of `s` is `SortByDueDate(s)`,
   * so every stable sort with this comparator gives the same list.
   */
  lemma {:induction false} StableSortUnique(s: seq<Deadline>, r: seq<Deadline>)
    requires SortedByDueDate(r)
    requires forall k :: DueOn(r, k) == DueOn(s, k)
    ensures r == SortByDueDate(s)
  {
    var q := SortByDueDate(s);
    forall k ensures DueOn(r, k) == DueOn(q, k) {
      SortStable(s, k);
    }
    SortedUnique(r, q);
  }

  /** Two sorted lists with the same records due on each day are equal. */
  lemma {:induction false} SortedUnique(r: seq<Deadline>, q: seq<Deadline>)
    requires SortedByDueDate(r) && SortedByDueDate(q)
    requires forall k :: DueOn(r, k) == DueOn(q, k)
    ensures r == q
    decreases |r| + |q|
  {
    if r != [] && q != [] {
      DueOnHead(r);
      DueOnHead(q);
      DueOnBound(r, q[0].dueDate);
      DueOnBound(q, r[0].dueDate);
      var k := r[0].dueDate;
      assert r[0] == DueOn(r, k)[0] == DueOn(q, k)[0] == q[0];
      forall j ensures DueOn(r[1..], j) == DueOn(q[1..], j) {
        var head: seq<Deadline> := if r[0].dueDate == j then [r[0]] else [];
        assert DueOn(r, j) == head + DueOn(r[1..], j);
        assert DueOn(q, j) == head + DueOn(q[1..], j);
        assert DueOn(r, j)[|head|..] == DueOn(r[1..], j);
        assert DueOn(q, j)[|head|..] == DueOn(q[1..], j);
      }
      SortedTail(r);
      SortedTail(q);
      SortedUnique(r[1..], q[1..]);
      assert r == [r[0]] + r[1..];
      assert q == [q[0]] + q[1..];
    } else {
      NothingDue(r);
      NothingDue(q);
    }
  }

  lemma {:induction false} DueOnHead(s: seq<Deadline>)
    requires s != []
    ensures DueOn(s, s[0].dueDate) != [] && DueOn(s, s[0].dueDate)[0] == s[0]
  {
  }

  /** Only the empty list has no record due on any day. */
  lemma {:induction false} NothingDue(s: seq<Deadline>)
    ensures (forall k :: DueOn(s, k) == []) ==> s == []
  {
    if s != [] {
      DueOnHead(s);
    }
  }

  /** In a sorted list, a record due on `k` means the head is due no later. */
  lemma {:induction false} DueOnBound(s: seq<Deadline>, k: int)
    requires SortedByDueDate(s) && s != []
    ensures DueOn(s, k) != [] ==> s[0].dueDate <= k
    decreases |s|
  {
    if |s| > 1 {
      SortedTail(s);
      DueOnBound(s[1..], k);
      assert s[0].dueDate <= s[1..][0].dueDate;
    } else {
      assert DueOn(s[1..], k) == [];
    }
  }

  lemma {:induction false} SortedTail(s: seq<Deadline>)
    requires SortedByDueDate(s) && s != []
    ensures SortedByDueDate(s[1..])
  {
    var t := s[1..];
    forall i | 0 < i < |t| ensures t[i - 1].dueDate <= t[i].dueDate {
      assert t[i - 1] == s[i] && t[i] == s[i + 1];
    }
  }

  // ---------------------------------------------------------------------
  // Labels
  // ---------------------------------------------------------------------

  /** `getStatusText`: the badge label of each status. */
  function GetStatusText(status: DeadlineStatus): string {
    match status
    case Overdue => "Vencido"
    case Due => "Vence Hoje"
    case Upcoming => "Pr\U{F3}ximo"
    case Safe => "Em dia"
  }

  /** The four statuses have four different labels. */
  lemma {:induction false} StatusTextInjective(a: DeadlineStatus, b: DeadlineStatus)
    requires GetStatusText(a) == GetStatusText(b)
    ensures a == b
  {
    assert GetStatusText(a)[0..2] == GetStatusText(b)[0..2];
    assert |GetStatusText(a)| == |GetStatusText(b)|;
  }

  const OverduePrefix: string := "Venceu h\U{E1} "
  const DueText: string := "Vence hoje"
  const UpcomingPrefix: string := "Vence em "
  const DaysSuffix: string := " dia(s)"

  /** The countdown line for a day difference `diffDays`. */
  function DaysRemainingText(diffDays: int): string {
    if diffDays < 0 then OverduePrefix + DecimalString(-diffDays) + DaysSuffix
    else if diffDays == 0 then DueText
    else UpcomingPrefix + DecimalString(diffDays) + DaysSuffix
  }

  /** `getDaysRemaining`, on the same day difference as the classifier. */
  function GetDaysRemaining(dueDate: int, today: int): string {
    DaysRemainingText(DayDifference(dueDate, today))
  }

  /**
   * The countdown line starts with "Venceu h\U{E1} " exactly when the day
   * difference is negative, starts with "Vence em " exactly when it is
   * positive, and is "Vence hoje" exactly when it is zero.
   */
  lemma {:induction false} DaysRemainingShape(diffDays: int)
    ensures var text := DaysRemainingText(diffDays);
      && |text| >= |OverduePrefix| > |UpcomingPrefix|
      && (text[..|OverduePrefix|] == OverduePrefix <==> diffDays < 0)
      && (text[..|UpcomingPrefix|] == UpcomingPrefix <==> diffDays > 0)
      && (text == DueText <==> diffDays == 0)
  {
    var text := DaysRemainingText(diffDays);
    assert OverduePrefix[5] != UpcomingPrefix[5] && OverduePrefix[5] != DueText[5];
    assert UpcomingPrefix[6] != DueText[6];
    if diffDays < 0 {
      assert text[..|OverduePrefix|] == OverduePrefix;
      assert text[..|UpcomingPrefix|][5] == OverduePrefix[5];
      assert text[5] == OverduePrefix[5];
    } else if diffDays > 0 {
      assert text[..|UpcomingPrefix|] == UpcomingPrefix;
      assert text[..|OverduePrefix|][5] == UpcomingPrefix[5];
      assert text[6] == UpcomingPrefix[6];
    } else {
      assert text[..|OverduePrefix|] == DueText;
      assert text[..|UpcomingPrefix|][6] == DueText[6];
    }
  }

  /**
   * "Vence hoje" appears exactly when the card's status is `Due`, the
   * "Venceu h\U{E1}" line exactly when it is `Overdue`, and the "Vence em"
   * line exactly when it is `Upcoming` or `Safe`.
   */
  lemma {:induction false} DaysRemainingMatchesStatus(dueDate: int, today: int)
    ensures var text := GetDaysRemaining(dueDate, today);
      var status := GetDeadlineStatus(dueDate, today);
      && (text == DueText <==> status == Due)
      && (text[..|OverduePrefix|] == OverduePrefix <==> status == Overdue)
      && (text[..|UpcomingPrefix|] == UpcomingPrefix <==> status == Upcoming || status == Safe)
  {
    DaysRemainingShape(DayDifference(dueDate, today));
  }

  /** Different day differences give different countdown lines. */
  lemma {:induction false} DaysRemainingInjective(d1: int, d2: int)
    requires DaysRemainingText(d1) == DaysRemainingText(d2)
    ensures d1 == d2
  {
    DaysRemainingShape(d1);
    DaysRemainingShape(d2);
    if d1 < 0 {
      Infix(OverduePrefix, DecimalString(-d1), DecimalString(-d2), DaysSuffix);
      DecimalStringInjective(-d1, -d2);
    } else if d1 > 0 {
      Infix(UpcomingPrefix, DecimalString(d1), DecimalString(d2), DaysSuffix);
      DecimalStringInjective(d1, d2);
    }
  }

  /** Equal texts with the same prefix and suffix have the same middle. */
  lemma {:induction false} Infix(p: string, a: string, b: string, q: string)
    requires p + a + q == p + b + q
    ensures a == b
  {
    var t := p + a + q;
    assert |a| == |b|;
    assert t[|p|..|p| + |a|] == a;
    assert (p + b + q)[|p|..|p| + |b|] == b;
  }

  // ---------------------------------------------------------------------
  // The component
  // ---------------------------------------------------------------------

  /**
   * The root component: the three form fields, the error message (`None`
   * for null) and the store it was given.
   */
  class AppComponent {
    const service: DeadlineService
    var subject: string
    var recipient: string
    var deadlineInput: string
    var errorMessage: Option<string>

    constructor (service: DeadlineService)
      ensures this.service == service
      ensures subject == [] && recipient == [] && deadlineInput == []
      ensures errorMessage == None
    {
      this.service := service;
      subject := [];
      recipient := [];
      deadlineInput := [];
      errorMessage := None;
    }

    /** `sortedDeadlines`: a sorted copy; the store's list keeps its order. */
    function SortedDeadlines(): (r: seq<Deadline>)
      reads service
      ensures SortedByDueDate(r)
      ensures multiset(r) == multiset(service.deadlines)
    {
      SortPermutes(service.deadlines);
      SortByDueDate(service.deadlines)
    }

    /** `hasDeadlines`. */
    function HasDeadlines(): bool
      reads service
    {
      |service.deadlines| > 0
    }

    /** The sorted view is non-empty exactly when the list is. */
    lemma {:induction false} HasDeadlinesIffSortedNonEmpty()
      ensures HasDeadlines() <==> SortedDeadlines() != []
    {
      assert |SortedDeadlines()| == |multiset(SortedDeadlines())| == |service.deadlines|;
    }

    /**
     * `addDeadline` (the submit handler): with a blank field, report that
     * all fields are required and leave everything else alone; otherwise pass
     * the untrimmed fields to the store, then clear the form on success or
     * report the format error and keep the fields on failure.
     */
    method AddDeadline(id: int, today: int)
      modifies this, service
      ensures AnyBlank(old(subject), old(recipient), old(deadlineInput)) ==>
        && errorMessage == Some(RequiredFieldsMessage)
        && subject == old(subject) && recipient == old(recipient)
        && deadlineInput == old(deadlineInput)
        && service.deadlines == old(service.deadlines)
        && service.notifications == old(service.notifications)
      ensures !AnyBlank(old(subject), old(recipient), old(deadlineInput))
              && ParseDeadlineInput(old(deadlineInput), today).Some? ==>
        && service.deadlines == old(service.deadlines)
             + [NewDeadline(id, old(subject), old(recipient), old(deadlineInput),
                            ParseDeadlineInput(old(deadlineInput), today).value, today)]
        && service.notifications == old(service.notifications) + 1
        && subject == [] && recipient == [] && deadlineInput == []
        && errorMessage == None
      ensures !AnyBlank(old(subject), old(recipient), old(deadlineInput))
              && ParseDeadlineInput(old(deadlineInput), today).None? ==>
        && errorMessage == Some(InvalidFormatMessage)
        && subject == old(subject) && recipient == old(recipient)
        && deadlineInput == old(deadlineInput)
        && service.deadlines == old(service.deadlines)
        && service.notifications == old(service.notifications)
    {
      if AnyBlank(subject, recipient, deadlineInput) {
        errorMessage := Some(RequiredFieldsMessage);
        return;
      }
      var success := service.AddDeadline(subject, recipient, deadlineInput, id, today);
      if success {
        subject := [];
        recipient := [];
        deadlineInput := [];
        errorMessage := None;
      } else {
        errorMessage := Some(InvalidFormatMessage);
      }
    }

    /** `deleteDeadline`: hands the id to the store. */
    method DeleteDeadline(id: int)
      modifies service
      ensures service.deadlines == Without(old(service.deadlines), id)
      ensures service.notifications == old(service.notifications) + 1
    {
      service.DeleteDeadline(id);
    }
  }
}
