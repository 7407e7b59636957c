/** Grouping holidays under their "MMMM YYYY" label, as the holiday list's
    month view and the monthly list both do with the loop `Grouping.GroupBy`
    models.  The label is the Spanish month name, a space and the year padded
    to four digits. */
module MonthGroups {
  import opened Text
  import opened Names
  import opened Seqs
  import opened Sorting
  import opened CivilDate
  import opened Holidays
  import opened Grouping

  /** dayjs 'YYYY': the year padded with zeros to four characters. */
  function YearText(y: int): string
  {
    PadStart(IntToString(y), 4, '0')
  }

  /** `dayjs(date).format('MMMM YYYY')` in the `es` locale. */
  function MonthYearLabel(d: Date): string
  {
    MonthName(d.month) + " " + YearText(d.year)
  }

  function LabelOf(h: Holiday): string
  {
    MonthYearLabel(h.date)
  }

  /** The holidays of one calendar month. */
  function InMonth(year: int, month: int): Holiday -> bool
  {
    (h: Holiday) => h.date.year == year && h.date.month == month
  }

  /** Years with four or more digits, for which 'YYYY' adds no padding. */
  predicate FourDigitYears(hs: seq<Holiday>)
  {
    forall i :: 0 <= i < |hs| ==> hs[i].date.year >= 1000
  }

  lemma NatToStringOfFourDigits(n: nat)
    requires n >= 1000
    ensures |NatToString(n)| >= 4
  {
    var m := n / 10;
    assert m >= 100;
    var p := m / 10;
    assert p >= 10;
    assert |NatToString(m)| == |NatToString(p)| + 1;
    assert |NatToString(n)| == |NatToString(m)| + 1;
  }

  /** A label reads back as its month name and its year. */
  lemma LabelSplits(d: Date)
    requires d.year >= 1000
    ensures YearText(d.year) == NatToString(d.year)
    ensures Split(MonthYearLabel(d), " ") == [MonthName(d.month), NatToString(d.year)]
  {
    NatToStringOfFourDigits(d.year);
    var name, digits := MonthName(d.month), NatToString(d.year);
    assert forall i :: 0 <= i < |name| ==> name[i] != ' ';
    assert forall i :: 0 <= i < |digits| ==> IsDigit(digits[i]);
    SplitAroundSpacedSeparator(name, digits, " ");
  }

  /** Two dates with four-digit years share a label exactly when they fall
      in the same month of the same year. */
  lemma LabelInjective(a: Date, b: Date)
    requires a.year >= 1000 && b.year >= 1000
    ensures MonthYearLabel(a) == MonthYearLabel(b) <==> a.year == b.year && a.month == b.month
  {
    LabelSplits(a);
    LabelSplits(b);
    if MonthYearLabel(a) == MonthYearLabel(b) {
      assert [MonthName(a.month), NatToString(a.year)] == [MonthName(b.month), NatToString(b.year)];
      MonthNamesDistinct(a.month, b.month);
      NatToStringInjective(a.year, b.year);
    }
  }

  lemma HasLabelIffInMonth(h: Holiday, d: Date)
    requires h.date.year >= 1000 && d.year >= 1000
    ensures HasKey(LabelOf, MonthYearLabel(d))(h) == InMonth(d.year, d.month)(h)
  {
    var key := MonthYearLabel(d);
    assert HasKey(LabelOf, key)(h) == (LabelOf(h) == key);
    assert LabelOf(h) == MonthYearLabel(h.date);
    LabelInjective(h.date, d);
    assert (MonthYearLabel(h.date) == key) == (h.date.year == d.year && h.date.month == d.month);
  }

  /** The bucket under a date's label holds that month's holidays, in list
      order. */
  lemma BucketIsMonth(hs: seq<Holiday>, d: Date)
    requires FourDigitYears(hs) && d.year >= 1000
    ensures Bucket(hs, LabelOf, MonthYearLabel(d)) == Filter(hs, InMonth(d.year, d.month))
  {
    forall h | h in hs ensures HasKey(LabelOf, MonthYearLabel(d))(h) == InMonth(d.year, d.month)(h) {
      var i :| 0 <= i < |hs| && hs[i] == h;
      HasLabelIffInMonth(h, d);
    }
    FilterCongruent(hs, HasKey(LabelOf, MonthYearLabel(d)), InMonth(d.year, d.month));
  }

  /** On a date-sorted list each month's holidays stand together. */
  lemma SortedIsContiguous(hs: seq<Holiday>)
    requires SortedBy(hs, DateKey) && FourDigitYears(hs)
    ensures Contiguous(hs, LabelOf)
  {
    forall i, j, k | 0 <= i < j < k < |hs| && LabelOf(hs[i]) == LabelOf(hs[k])
      ensures LabelOf(hs[j]) == LabelOf(hs[i])
    {
      var a, b, c := hs[i].date, hs[j].date, hs[k].date;
      LabelInjective(a, c);
      BeforeIffDayNumber(b, a);
      BeforeIffDayNumber(c, b);
      LabelInjective(a, b);
    }
  }

  /** The month view of a date-sorted list shows every holiday once and in
      list order: its sections, read in key order, concatenate to the list. */
  lemma SortedMonthSections(hs: seq<Holiday>)
    requires SortedBy(hs, DateKey) && FourDigitYears(hs)
    ensures Flatten(Buckets(hs, LabelOf)) == hs
  {
    SortedIsContiguous(hs);
    FlattenContiguousBuckets(hs, LabelOf);
  }
}
