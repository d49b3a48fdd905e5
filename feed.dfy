/** The feed page's client-side filtering: the free-text search, the
    status, source and date filters, the source drop-down, and the filter
    state with its badge.  Dates are millisecond timestamps and a chosen day
    is a day number, so a day's window is `[day * DayMs, day * DayMs + DayMs - 1]`;
    the browser's time zone is not modelled. */
module Feed {
  import opened Common
  import opened Store
  import opened VatController

  const DayMs: int := 86400000

  /** One invoice as the page receives it from `GET /api/vat`; a missing
      field (or a missing linked invoice) is "". */
  datatype FeedInvoice = FeedInvoice(
    fileName: string,
    source: string,
    subject: string,
    senderEmail: string,
    localPath: string,
    isPublished: bool,
    uploadedDate: Millis)

  /** The JSON the list endpoint sends for a populated VAT file. */
  function FromPopulated(p: PopulatedVat): (r: FeedInvoice)
    ensures r.fileName == p.file.fileName && r.source == p.file.source
    ensures r.isPublished == p.file.isPublished && r.uploadedDate == p.file.uploadedDate
    ensures p.invoice.None? ==> r.subject == "" && r.senderEmail == ""
    ensures p.invoice.Some? ==> r.subject == p.invoice.value.subject && r.senderEmail == p.invoice.value.senderEmail
    ensures r.localPath == "" <==> p.file.localPath.None? || p.file.localPath.value == ""
  {
    FeedInvoice(
      p.file.fileName,
      p.file.source,
      if p.invoice.Some? then p.invoice.value.subject else "",
      if p.invoice.Some? then p.invoice.value.senderEmail else "",
      if p.file.localPath.Some? then p.file.localPath.value else "",
      p.file.isPublished,
      p.file.uploadedDate)
  }

  datatype StatusFilter = All | Published | Unpublished

  /** The filter state: the search box, and the four filters of the panel;
      a chosen day is `Some(day)`. */
  datatype Filters = Filters(
    searchTerm: string,
    status: StatusFilter,
    source: string,
    dateFrom: Option<int>,
    dateTo: Option<int>)

  // ---------------------------------------------------------------------
  // The filter predicate
  // ---------------------------------------------------------------------

  /** An empty search matches everything; otherwise the lower-cased term
      must occur in one of the four lower-cased fields. */
  predicate SearchMatches(term: string, inv: FeedInvoice) {
    var t := Lower(term);
    term == "" ||
    Contains(Lower(inv.fileName), t) || Contains(Lower(inv.source), t) ||
    Contains(Lower(inv.subject), t) || Contains(Lower(inv.senderEmail), t)
  }

  predicate StatusMatches(status: StatusFilter, inv: FeedInvoice) {
    match status
    case All => true
    case Published => inv.isPublished
    case Unpublished => !inv.isPublished
  }

  /** An empty source filter matches everything; otherwise the invoice's
      own source must contain it, ignoring case. */
  predicate SourceMatches(source: string, inv: FeedInvoice) {
    source == "" || Contains(Lower(inv.source), Lower(source))
  }

  /** On or after the first instant of `from`, on or before the last
      instant of `to`. */
  predicate DateMatches(from: Option<int>, to: Option<int>, inv: FeedInvoice) {
    (from.None? || inv.uploadedDate >= from.value * DayMs) &&
    (to.None? || inv.uploadedDate <= to.value * DayMs + (DayMs - 1))
  }

  predicate Keep(f: Filters, inv: FeedInvoice) {
    SearchMatches(f.searchTerm, inv) && StatusMatches(f.status, inv) &&
    SourceMatches(f.source, inv) && DateMatches(f.dateFrom, f.dateTo, inv)
  }

  /** `filteredInvoices`. */
  function Filtered(xs: seq<FeedInvoice>, f: Filters): (r: seq<FeedInvoice>)
    ensures |r| <= |xs|
  {
    if xs == [] then []
    else (if Keep(f, xs[0]) then [xs[0]] else []) + Filtered(xs[1..], f)
  }

  /** `sub` is `xs` with some elements left out, the rest in order. */
  predicate IsSubsequence<T(==)>(sub: seq<T>, xs: seq<T>)
    decreases |xs|
  {
    if sub == [] then true
    else if xs == [] then false
    else if sub[0] == xs[0] then IsSubsequence(sub[1..], xs[1..])
    else IsSubsequence(sub, xs[1..])
  }

  /** The filtered list keeps the order of the original list. */
  lemma {:induction false} FilteredIsSubsequence(xs: seq<FeedInvoice>, f: Filters)
    ensures IsSubsequence(Filtered(xs, f), xs)
  {
    if xs != [] {
      FilteredIsSubsequence(xs[1..], f);
      var r := Filtered(xs, f);
      if Keep(f, xs[0]) {
        assert r[0] == xs[0] && r[1..] == Filtered(xs[1..], f);
      } else {
        assert r == Filtered(xs[1..], f);
        SubsequenceOfTail(r, xs);
      }
    }
  }

  lemma {:induction false} SubsequenceOfTail<T>(sub: seq<T>, xs: seq<T>)
    requires xs != [] && IsSubsequence(sub, xs[1..])
    ensures IsSubsequence(sub, xs)
    decreases |xs|, |sub|
  {
    if sub != [] && sub[0] == xs[0] {
      if |xs| > 1 {
        SubsequenceDropFirst(sub, xs[1..]);
      }
    }
  }

  lemma {:induction false} SubsequenceDropFirst<T>(sub: seq<T>, xs: seq<T>)
    requires sub != [] && IsSubsequence(sub, xs)
    ensures IsSubsequence(sub[1..], xs)
    decreases |xs|, |sub|
  {
    assert xs != [];
    if sub[0] == xs[0] {
      if sub[1..] != [] {
        SubsequenceOfTail(sub[1..], xs);
      }
    } else {
      SubsequenceDropFirst(sub, xs[1..]);
      if sub[1..] != [] {
        SubsequenceOfTail(sub[1..], xs);
      }
    }
  }

  /** An invoice is shown exactly when it is in the list and passes every
      filter. */
  lemma {:induction false} FilteredMembers(xs: seq<FeedInvoice>, f: Filters, x: FeedInvoice)
    ensures x in Filtered(xs, f) <==> x in xs && Keep(f, x)
  {
    if xs != [] {
      FilteredMembers(xs[1..], f, x);
      assert xs == [xs[0]] + xs[1..];
    }
  }

  /** The filters the page starts with (and returns to), around a search
      term. */
  function Defaults(searchTerm: string): (f: Filters)
    ensures f.searchTerm == searchTerm && f.status == All && f.source == ""
    ensures f.dateFrom.None? && f.dateTo.None?
  {
    Filters(searchTerm, All, "", None, None)
  }

  /** With no search and no filter, every invoice is shown. */
  lemma {:induction false} DefaultsKeepAll(xs: seq<FeedInvoice>)
    ensures Filtered(xs, Defaults("")) == xs
  {
    if xs != [] {
      DefaultsKeepAll(xs[1..]);
      assert xs == [xs[0]] + xs[1..];
    }
  }

  lemma LowerOfUpper(s: string)
    ensures Lower(Upper(s)) == Lower(s)
  {
    forall k | 0 <= k < |s| ensures Lower(Upper(s))[k] == Lower(s)[k] {
      var c := s[k];
      if 'a' <= c <= 'z' {
        assert UpperChar(c) == (c as int - 32) as char;
      }
    }
  }

  /** The search ignores the case of the term. */
  lemma SearchIgnoresCase(term: string, inv: FeedInvoice)
    ensures SearchMatches(Upper(term), inv) == SearchMatches(term, inv)
    ensures SearchMatches(Lower(term), inv) == SearchMatches(term, inv)
  {
    LowerOfUpper(term);
    LowerOfLower(term);
  }

  lemma LowerOfLower(s: string)
    ensures Lower(Lower(s)) == Lower(s)
  {
    forall k | 0 <= k < |s| ensures Lower(Lower(s))[k] == Lower(s)[k] {
      var c := s[k];
      if 'A' <= c <= 'Z' {
        assert LowerChar(c) == (c as int + 32) as char;
      }
    }
  }

  /** A non-empty source filter drops the invoices that have no source. */
  lemma SourceFilterDropsMissing(f: Filters, inv: FeedInvoice)
    requires f.source != "" && inv.source == ""
    ensures !Keep(f, inv)
  {
  }

  /** Choosing the same day as "from" and "to" keeps exactly the invoices
      uploaded during that day. */
  lemma DateFilterIsDayWindow(f: Filters, inv: FeedInvoice, day: int)
    requires f.dateFrom == Some(day) && f.dateTo == Some(day)
    ensures DateMatches(f.dateFrom, f.dateTo, inv) <==>
              day * DayMs <= inv.uploadedDate < (day + 1) * DayMs
  {
  }

  // ---------------------------------------------------------------------
  // The source drop-down
  // ---------------------------------------------------------------------

  /** `[...new Set(invoices.map(inv => inv.source).filter(Boolean))]`:
      the non-empty sources in order of first appearance. */
  function UniqueSources(xs: seq<FeedInvoice>): (r: seq<string>)
    ensures forall k :: 0 <= k < |r| ==> r[k] != ""
    ensures forall i, j :: 0 <= i < j < |r| ==> r[i] != r[j]
  {
    if xs == [] then []
    else
      var r := UniqueSources(xs[..|xs| - 1]);
      var s := xs[|xs| - 1].source;
      if s == "" || s in r then r else r + [s]
  }

  /** Every non-empty source appears in the drop-down, and nothing else. */
  lemma {:induction false} UniqueSourcesMembers(xs: seq<FeedInvoice>, s: string)
    ensures s in UniqueSources(xs) <==> s != "" && exists k :: 0 <= k < |xs| && xs[k].source == s
  {
    if xs != [] {
      var init := xs[..|xs| - 1];
      UniqueSourcesMembers(init, s);
      if s != "" && (exists k :: 0 <= k < |xs| && xs[k].source == s) {
        var k :| 0 <= k < |xs| && xs[k].source == s;
        if k < |xs| - 1 {
          assert init[k].source == s;
        }
      }
      if exists k :: 0 <= k < |init| && init[k].source == s {
        var k :| 0 <= k < |init| && init[k].source == s;
        assert xs[k].source == s;
      }
    }
  }

  // ---------------------------------------------------------------------
  // Filter state and badge
  // ---------------------------------------------------------------------

  /** `hasActiveFilters`: a status other than `all`, or any of the other
      three filters set.  The search term does not count. */
  function HasActiveFilters(f: Filters): (b: bool)
    ensures b <==> f != Defaults(f.searchTerm)
  {
    f.status != All || f.source != "" || f.dateFrom.Some? || f.dateTo.Some?
  }

  /** The number on the filter button: one per active filter. */
  function BadgeCount(f: Filters): (n: nat)
    ensures n <= 4
    ensures n == 0 <==> !HasActiveFilters(f)
  {
    (if f.status != All then 1 else 0) + (if f.source != "" then 1 else 0) +
    (if f.dateFrom.Some? then 1 else 0) + (if f.dateTo.Some? then 1 else 0)
  }

  /** Inactive filters hide nothing the search alone would show. */
  lemma InactiveFiltersOnlySearch(f: Filters, inv: FeedInvoice)
    requires !HasActiveFilters(f)
    ensures Keep(f, inv) <==> SearchMatches(f.searchTerm, inv)
  {
  }

  /** The page's filter state. */
  class FeedFilters {
    var searchTerm: string
    var status: StatusFilter
    var source: string
    var dateFrom: Option<int>
    var dateTo: Option<int>

    function Current(): Filters
      reads this
    {
      Filters(searchTerm, status, source, dateFrom, dateTo)
    }

    constructor ()
      ensures Current() == Defaults("")
    {
      searchTerm, status, source, dateFrom, dateTo := "", All, "", None, None;
    }

    /** `clearFilters`: the four panel filters return to their defaults;
        the search term stays. */
    method ClearFilters()
      modifies this
      ensures Current() == Defaults(old(searchTerm))
      ensures !HasActiveFilters(Current()) && BadgeCount(Current()) == 0
    {
      status := All;
      source := "";
      dateFrom := None;
      dateTo := None;
    }
  }
}
