/** The paging and sorting parameters of a listing, and their validation. */
module Filters {
  import opened Records
  import opened Validation

  datatype Filters = Filters(page: int, pageSize: int, sort: string, sortList: seq<string>)

  /** Pagination metadata; `ZeroMetadata` is Go's `Metadata{}`. */
  datatype Metadata = Metadata(
    currentPage: int, pageSize: int, firstPage: int, lastPage: int, totalRecords: int)

  const ZeroMetadata := Metadata(0, 0, 0, 0, 0)

  /** The helpers over `Filters` whose definitions are not part of this model.
      `sortRank(f)` stands for `ORDER BY f.sortColumn() f.sortOrder()`: it gives
      each row the position of its sort-column value in the sort direction, so
      that rows with equal values share a rank. `limit`, `offset` and
      `calculateMetadata` are the functions of those names. */
  datatype Helpers = Helpers(
    sortRank: Filters -> Row -> int,
    limit: Filters -> int,
    offset: Filters -> int,
    calculateMetadata: (int, int, int) -> Metadata)

  function PageRules(f: Filters): seq<Rule> {
    [Rule(f.page > 0, "page", "must be greater than zero"),
     Rule(f.page <= 1000, "page", "must be maximum of 1000")]
  }

  /** The page-size checks as written: both test `page`. */
  function PageSizeRules(f: Filters): seq<Rule> {
    [Rule(f.page > 0, "page_size", "must be greater than zero"),
     Rule(f.page <= 100, "page_size", "must be maximum of 100")]
  }

  function SortRules(f: Filters): seq<Rule> {
    [Rule(f.sort in f.sortList, "sort", "invalid sort value")]
  }

  /** The checks `ValidateFilters` makes, in order. */
  function FilterRules(f: Filters): seq<Rule> {
    PageRules(f) + PageSizeRules(f) + SortRules(f)
  }

  /** `ValidateFilters`: `f` is a value, so only the validator changes. */
  method ValidateFilters(v: Validator, f: Filters)
    modifies v
    ensures v.errors == Apply(old(v.errors), FilterRules(f))
  {
    ghost var e := v.errors;
    v.Check(f.page > 0, "page", "must be greater than zero");
    v.Check(f.page <= 1000, "page", "must be maximum of 1000");
    ApplyPair(e, PageRules(f)[0], PageRules(f)[1]);
    ghost var done := PageRules(f);
    v.Check(f.page > 0, "page_size", "must be greater than zero");
    v.Check(f.page <= 100, "page_size", "must be maximum of 100");
    ApplyPair(Apply(e, done), PageSizeRules(f)[0], PageSizeRules(f)[1]);
    ApplyConcat(e, done, PageSizeRules(f));
    done := done + PageSizeRules(f);
    v.Check(f.sort in f.sortList, "sort", "invalid sort value");
    assert SortRules(f)[1..] == [];
    ApplyConcat(e, done, SortRules(f));
  }

  /** Which keys get an error, key by key, and that no other key does. */
  lemma FilterFailures(f: Filters)
    ensures "page" in FailedKeys(FilterRules(f)) <==> f.page <= 0 || f.page > 1000
    ensures "page_size" in FailedKeys(FilterRules(f)) <==> f.page <= 0 || f.page > 100
    ensures "sort" in FailedKeys(FilterRules(f)) <==> f.sort !in f.sortList
    ensures FailedKeys(FilterRules(f)) <= {"page", "page_size", "sort"}
  {
    FailedKeysConcat(PageRules(f), PageSizeRules(f));
    FailedKeysConcat(PageRules(f) + PageSizeRules(f), SortRules(f));
    assert FailedKeys(PageRules(f)) <= {"page"};
    assert FailedKeys(PageSizeRules(f)) <= {"page_size"};
    assert FailedKeys(SortRules(f)) <= {"sort"};
    assert "page" in FailedKeys(PageRules(f)) <==> f.page <= 0 || f.page > 1000 by {
      if f.page <= 0 { assert !PageRules(f)[0].ok; }
      if f.page > 1000 { assert !PageRules(f)[1].ok; }
    }
    assert "page_size" in FailedKeys(PageSizeRules(f)) <==> f.page <= 0 || f.page > 100 by {
      if f.page <= 0 { assert !PageSizeRules(f)[0].ok; }
      if f.page > 100 { assert !PageSizeRules(f)[1].ok; }
    }
    assert "sort" in FailedKeys(SortRules(f)) <==> f.sort !in f.sortList by {
      if f.sort !in f.sortList { assert !SortRules(f)[0].ok; }
    }
  }

  /** After validation the errors are those before, kept as they were, plus
      errors under `page`, `page_size` and `sort` only. */
  lemma ValidateFiltersKeys(errors: map<string, string>, f: Filters)
    ensures Apply(errors, FilterRules(f)).Keys == errors.Keys + FailedKeys(FilterRules(f))
    ensures Apply(errors, FilterRules(f)).Keys <= errors.Keys + {"page", "page_size", "sort"}
    ensures forall k :: k in errors ==> Apply(errors, FilterRules(f))[k] == errors[k]
  {
    ApplyKeys(errors, FilterRules(f));
    FilterFailures(f);
  }

  /** `PageSize` is never examined: validation gives the same errors
      whatever it is. */
  lemma PageSizeNeverExamined(errors: map<string, string>, f: Filters, size: int)
    ensures Apply(errors, FilterRules(f)) == Apply(errors, FilterRules(f.(pageSize := size)))
  {
  }

  /** A page in 101..1000 gets a `page_size` error but no `page` error. */
  lemma LargePageBlamesPageSize(errors: map<string, string>, f: Filters)
    requires 100 < f.page <= 1000
    requires "page" !in errors
    ensures "page_size" in Apply(errors, FilterRules(f))
    ensures "page" !in Apply(errors, FilterRules(f))
  {
    ValidateFiltersKeys(errors, f);
    FilterFailures(f);
  }

  /** A page in 1..100 and a listed sort key pass validation, whatever the
      page size. */
  lemma SmallPageAccepted(errors: map<string, string>, f: Filters)
    requires 1 <= f.page <= 100 && f.sort in f.sortList
    ensures Apply(errors, FilterRules(f)) == errors
  {
    FilterFailures(f);
    ApplyNoFailures(errors, FilterRules(f));
  }

  /** The corrected page-size checks, testing `pageSize`. */
  function IntendedPageSizeRules(f: Filters): seq<Rule> {
    [Rule(f.pageSize > 0, "page_size", "must be greater than zero"),
     Rule(f.pageSize <= 100, "page_size", "must be maximum of 100")]
  }

  function IntendedFilterRules(f: Filters): seq<Rule> {
    PageRules(f) + IntendedPageSizeRules(f) + SortRules(f)
  }

  /** With the corrected checks each key is blamed for its own parameter. */
  lemma IntendedFilterFailures(f: Filters)
    ensures "page" in FailedKeys(IntendedFilterRules(f)) <==> f.page <= 0 || f.page > 1000
    ensures "page_size" in FailedKeys(IntendedFilterRules(f)) <==> f.pageSize <= 0 || f.pageSize > 100
    ensures "sort" in FailedKeys(IntendedFilterRules(f)) <==> f.sort !in f.sortList
    ensures FailedKeys(IntendedFilterRules(f)) <= {"page", "page_size", "sort"}
  {
    FailedKeysConcat(PageRules(f), IntendedPageSizeRules(f));
    FailedKeysConcat(PageRules(f) + IntendedPageSizeRules(f), SortRules(f));
    assert FailedKeys(PageRules(f)) <= {"page"};
    assert FailedKeys(IntendedPageSizeRules(f)) <= {"page_size"};
    assert FailedKeys(SortRules(f)) <= {"sort"};
    assert "page" in FailedKeys(PageRules(f)) <==> f.page <= 0 || f.page > 1000 by {
      if f.page <= 0 { assert !PageRules(f)[0].ok; }
      if f.page > 1000 { assert !PageRules(f)[1].ok; }
    }
    assert "page_size" in FailedKeys(IntendedPageSizeRules(f)) <==> f.pageSize <= 0 || f.pageSize > 100 by {
      if f.pageSize <= 0 { assert !IntendedPageSizeRules(f)[0].ok; }
      if f.pageSize > 100 { assert !IntendedPageSizeRules(f)[1].ok; }
    }
    assert "sort" in FailedKeys(SortRules(f)) <==> f.sort !in f.sortList by {
      if f.sort !in f.sortList { assert !SortRules(f)[0].ok; }
    }
  }

  /** The corrected `ValidateFilters`. */
  method ValidateFiltersIntended(v: Validator, f: Filters)
    modifies v
    ensures v.errors == Apply(old(v.errors), IntendedFilterRules(f))
  {
    ghost var e := v.errors;
    v.Check(f.page > 0, "page", "must be greater than zero");
    v.Check(f.page <= 1000, "page", "must be maximum of 1000");
    ApplyPair(e, PageRules(f)[0], PageRules(f)[1]);
    ghost var done := PageRules(f);
    v.Check(f.pageSize > 0, "page_size", "must be greater than zero");
    v.Check(f.pageSize <= 100, "page_size", "must be maximum of 100");
    ApplyPair(Apply(e, done), IntendedPageSizeRules(f)[0], IntendedPageSizeRules(f)[1]);
    ApplyConcat(e, done, IntendedPageSizeRules(f));
    done := done + IntendedPageSizeRules(f);
    v.Check(f.sort in f.sortList, "sort", "invalid sort value");
    assert SortRules(f)[1..] == [];
    ApplyConcat(e, done, SortRules(f));
  }

  /** Page 1 with page size 0 passes the checks as written, and the corrected
      checks reject it. */
  lemma ZeroPageSizeAccepted()
    ensures Apply(map[], FilterRules(Filters(1, 0, "id", ["id"]))) == map[]
    ensures "page_size" in Apply(map[], IntendedFilterRules(Filters(1, 0, "id", ["id"])))
  {
    var f := Filters(1, 0, "id", ["id"]);
    SmallPageAccepted(map[], f);
    IntendedFilterFailures(f);
    ApplyKeys(map[], IntendedFilterRules(f));
  }
}
