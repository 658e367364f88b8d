/** The pager under a table (app/components/misc/Pagination.tsx): the page
    buttons, the previous and next arrows, and the rows-per-page select. */
module Pagination {
  import opened SeqUtil
  import opened JsText

  /** The paging metadata of a list response. */
  datatype PagingInfo = PagingInfo(currentPage: int, totalPages: int, totalCount: int, pageSize: int)

  /** A navigation the pager asks for: to a page, or to a page size. */
  datatype Navigation = ToPage(page: int) | ToPageSize(size: string)

  /** `Array.from({ length: total_pages }, (_, i) => i + 1)` (Pagination.tsx:25): the
      pages 1 to `total` in ascending order, none when `total` is not positive. */
  function Pages(total: int): (r: seq<int>)
    ensures |r| == if total > 0 then total else 0
    ensures forall i :: 0 <= i < |r| ==> r[i] == i + 1
  {
    if total > 0 then seq(total, i requires 0 <= i < total => i + 1) else []
  }

  /** The listed pages are exactly 1 to `total`, strictly ascending. */
  lemma PagesAre(total: int)
    ensures forall p :: p in Pages(total) <==> 1 <= p <= total
    ensures forall i, j :: 0 <= i < j < |Pages(total)| ==> Pages(total)[i] < Pages(total)[j]
  {
    forall p | 1 <= p <= total ensures p in Pages(total) {
      assert Pages(total)[p - 1] == p;
    }
  }

  /** The previous arrow (Pagination.tsx:59-68): shown only after page 1, and it
      goes one page back. */
  function PrevTarget(current: int): (r: Option<Navigation>)
    ensures r.Some? <==> current > 1
    ensures r.Some? ==> r.value == ToPage(current - 1)
  {
    if current > 1 then Some(ToPage(current - 1)) else None
  }

  /** The next arrow as written (Pagination.tsx:82-91): shown whenever the current
      page is not the last one, and it goes one page forward. */
  function NextTargetAsWritten(current: int, total: int): (r: Option<Navigation>)
    ensures r.Some? <==> current != total
    ensures r.Some? ==> r.value == ToPage(current + 1)
  {
    if current != total then Some(ToPage(current + 1)) else None
  }

  /** With no pages, or on a page past the last, the written arrow still shows and
      leads to a page that is not listed. */
  lemma NextArrowLeavesPages(current: int, total: int)
    requires 1 <= current && total < current
    ensures NextTargetAsWritten(current, total) == Some(ToPage(current + 1))
    ensures current + 1 !in Pages(total)
  {
    PagesAre(total);
  }

  /** The next arrow shown only before the last page. */
  function NextTarget(current: int, total: int): (r: Option<Navigation>)
    ensures r.Some? <==> current < total
    ensures r.Some? ==> r.value == ToPage(current + 1)
  {
    if current < total then Some(ToPage(current + 1)) else None
  }

  /** From a listed page, both arrows lead to listed pages, and they agree with
      the written ones on every listed page. */
  lemma ArrowsStayInPages(current: int, total: int)
    requires 1 <= current <= total
    ensures PrevTarget(current).Some? ==> PrevTarget(current).value.page in Pages(total)
    ensures NextTarget(current, total).Some? ==> NextTarget(current, total).value.page in Pages(total)
    ensures NextTarget(current, total) == NextTargetAsWritten(current, total)
  {
    PagesAre(total);
  }

  /** The look of a page button (Pagination.tsx:72). */
  datatype Variant = Filled | Outline

  /** The current page's button is filled, the others outlined. */
  function PageVariant(page: int, current: int): (v: Variant)
    ensures v == Filled <==> page == current
  {
    if page == current then Filled else Outline
  }

  /** A click on a page button (Pagination.tsx:73-77): the current page's button
      does nothing; any other goes to its page. */
  function PageClick(page: int, current: int): (r: Option<Navigation>)
    ensures r.None? <==> page == current
    ensures r.Some? ==> r.value == ToPage(page)
  {
    if page != current then Some(ToPage(page)) else None
  }

  /** On a listed page exactly one button is filled, the one at its position, and
      only that button is inert. */
  lemma OneFilledButton(current: int, total: int)
    requires 1 <= current <= total
    ensures PageVariant(Pages(total)[current - 1], current) == Filled
    ensures forall i :: 0 <= i < |Pages(total)| && i != current - 1 ==>
              PageVariant(Pages(total)[i], current) == Outline && PageClick(Pages(total)[i], current).Some?
  {
  }

  /** The rows-per-page choices (Pagination.tsx:48-52), in order. */
  const PageSizeChoices: seq<string> := ["20", "50", "100", "150", "200"]

  /** Each choice is the printed form of its page size. */
  lemma PageSizeChoicesArePrinted()
    ensures |PageSizeChoices| == 5
    ensures PageSizeChoices == [IntToString(20), IntToString(50), IntToString(100), IntToString(150), IntToString(200)]
  {
    assert DigitChar(0) == '0' && DigitChar(1) == '1' && DigitChar(2) == '2' && DigitChar(5) == '5';
    assert NatDigits(20) == NatDigits(2) + [DigitChar(0)] == "20";
    assert NatDigits(50) == NatDigits(5) + [DigitChar(0)] == "50";
    assert NatDigits(10) == NatDigits(1) + [DigitChar(0)] == "10";
    assert NatDigits(15) == NatDigits(1) + [DigitChar(5)] == "15";
    assert NatDigits(100) == NatDigits(10) + [DigitChar(0)] == "100";
    assert NatDigits(150) == NatDigits(15) + [DigitChar(0)] == "150";
    assert NatDigits(200) == NatDigits(20) + [DigitChar(0)] == "200";
  }

  /** The page sizes offered. */
  const PageSizes: seq<int> := [20, 50, 100, 150, 200]

  /** The incoming page size shows as a listed choice exactly when it is one of
      the offered sizes; any other size (25, say) matches no choice. */
  lemma InitialRowIsChoiceIff(pageSize: int)
    ensures IntToString(pageSize) in PageSizeChoices <==> pageSize in PageSizes
  {
    PageSizeChoicesArePrinted();
    if IntToString(pageSize) in PageSizeChoices {
      var k :| 0 <= k < 5 && PageSizeChoices[k] == IntToString(pageSize);
      IntToStringInjective(pageSize, PageSizes[k]);
    }
  }

  /** The select's state. */
  class PageSizeSelect {
    var row: string

    /** `row` starts as the incoming page size printed (Pagination.tsx:27). */
    constructor (meta: PagingInfo)
      ensures row == IntToString(meta.pageSize)
    {
      row := IntToString(meta.pageSize);
    }

    /** `onChange` (Pagination.tsx:29-32): the chosen value is navigated to as the
      page size and recorded as the row value. */
    method Change(value: string) returns (nav: Navigation)
      modifies this
      ensures nav == ToPageSize(value) && row == value
    {
      nav := ToPageSize(value);
      row := value;
    }
  }
}
