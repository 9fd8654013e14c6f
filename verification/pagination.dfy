/** The run loop of `main` in run.py: extract the current page, append its
    new records to the output, then ask for the next page, stopping at the
    first "no". The browser is replaced by a fixed script of pages and
    next-page answers. */
module Pagination {
  import opened Seqs
  import Dedup
  import opened Scraping

  /** A page: its "quote" elements in document order. */
  type Page = seq<RawRecord>

  /** What the browser will show: `pages[k]` is the k-th page visited and
      `hasNext[k]` is what go_to_next_page answers while on it. */
  datatype Site = Site(pages: seq<Page>, hasNext: seq<bool>)

  /** A script on which the run ends even if every page reads: some page
      reports no next page. A run that a fault ends earlier is still
      covered, since the answers after the failing page are never asked
      for. */
  predicate Finite(site: Site)
  {
    |site.pages| == |site.hasNext| && false in site.hasNext
  }

  /** The position of the first `false`. */
  function FirstFalse(bs: seq<bool>): (i: nat)
    requires false in bs
    ensures i < |bs| && !bs[i]
    ensures forall j :: 0 <= j < i ==> bs[j]
    decreases |bs|
  {
    if !bs[0] then 0
    else
      assert bs == [bs[0]] + bs[1..];
      FirstFalse(bs[1..]) + 1
  }

  /** The first `k` pages all load and read without a fault. */
  predicate LoadsUpTo(pages: seq<Page>, k: nat, norm: string -> string)
  {
    k <= |pages| && forall j :: 0 <= j < k ==> PageRecords(pages[j], norm).Ok?
  }

  /** All records of the first `k` pages, page after page, before
      de-duplication. */
  function Collected(pages: seq<Page>, k: nat, norm: string -> string): seq<Record>
    requires LoadsUpTo(pages, k, norm)
    decreases k
  {
    if k == 0 then []
    else Collected(pages, k - 1, norm) + PageRecords(pages[k - 1], norm).value
  }

  /** How a run ends: the last page was reached, or reading a page raised. */
  datatype Outcome = Exhausted | Crashed(fault: Fault)

  /** After the first `n` pages: they all loaded, and the output is their
      de-duplicated records. */
  predicate Reached(site: Site, n: nat, norm: string -> string, out: seq<Record>)
  {
    && LoadsUpTo(site.pages, n, norm)
    && out == Dedup.Firsts(Collected(site.pages, n, norm), {})
  }

  /** The state of a run after the first `i` pages: `Reached`, an output
      without repeats, and a seen-set holding every record those pages
      showed. */
  predicate Progress(site: Site, i: nat, norm: string -> string, out: seq<Record>, seen: set<Record>)
  {
    && Reached(site, i, norm, out)
    && NoDup(out)
    && seen == Elems(Collected(site.pages, i, norm))
  }

  /** Where a loop cycle leaves the run: go on to the next page, or stop. */
  datatype Step = Continue | Stop(outcome: Outcome)

  /** One pass through the body of the `while True:` loop in `main`, on
      page `i`: extract it, append what get_quotes keeps, then ask for the
      next page. `out` and `seen` are the output and seen-set after the
      first `i` pages. */
  method Cycle(site: Site, i: nat, norm: string -> string, out: seq<Record>, seen: set<Record>)
    returns (out': seq<Record>, seen': set<Record>, step: Step)
    requires Finite(site) && i <= FirstFalse(site.hasNext)
    requires Progress(site, i, norm, out, seen)
    ensures step == Continue ==>
              i < FirstFalse(site.hasNext) && Progress(site, i + 1, norm, out', seen')
    ensures step == Stop(Exhausted) ==>
              i == FirstFalse(site.hasNext) && Progress(site, i + 1, norm, out', seen')
    ensures step.Stop? && step.outcome.Crashed? ==>
              && PageRecords(site.pages[i], norm) == Err(step.outcome.fault)
              && out' == out
  {
    var quotes := GetQuotes(site.pages[i], seen, norm);
    if quotes.Err? {
      return out, seen, Stop(Crashed(quotes.fault));
    }
    RunStep(site.pages, i, norm);
    out' := out + quotes.value.kept;
    FirstsNoDup(Collected(site.pages, i + 1, norm));
    seen' := quotes.value.seen;
    if !site.hasNext[i] {
      FirstFalseAt(site.hasNext, i);
      step := Stop(Exhausted);
    } else {
      FirstFalseBeyond(site.hasNext, i);
      step := Continue;
    }
  }

  /** One run of `main`. `out` is everything appended to the output file,
      `extractions` counts get_quotes calls and `advances` counts
      go_to_next_page calls. */
  method Scrape(site: Site, norm: string -> string)
    returns (out: seq<Record>, outcome: Outcome, extractions: nat, advances: nat)
    requires Finite(site)
    ensures var n := FirstFalse(site.hasNext) + 1;
            outcome.Exhausted? ==>
              extractions == n && advances == n && Reached(site, n, norm, out)
    ensures var n := FirstFalse(site.hasNext) + 1;
            outcome.Crashed? ==>
              && advances < n && extractions == advances + 1
              && Reached(site, advances, norm, out)
              && PageRecords(site.pages[advances], norm) == Err(outcome.fault)
    ensures NoDup(out)
  {
    out := [];
    var seen: set<Record> := {};
    var i := 0;
    extractions, advances := 0, 0;
    while true
      invariant i <= FirstFalse(site.hasNext)
      invariant extractions == advances == i
      invariant Progress(site, i, norm, out, seen)
      decreases |site.pages| - i
    {
      var step;
      extractions := extractions + 1;
      out, seen, step := Cycle(site, i, norm, out, seen);
      if step.Stop? && step.outcome.Crashed? {
        outcome := step.outcome;
        return;
      }
      advances := advances + 1;
      if step.Stop? {
        outcome := Exhausted;
        return;
      }
      i := i + 1;
    }
  }

  /** A `false` at or before the first `false` is the first `false`. */
  lemma FirstFalseAt(bs: seq<bool>, i: nat)
    requires false in bs && i <= FirstFalse(bs) && i < |bs| && !bs[i]
    ensures FirstFalse(bs) == i
  {
  }

  /** A `true` at or before the first `false` lies strictly before it. */
  lemma FirstFalseBeyond(bs: seq<bool>, i: nat)
    requires false in bs && i <= FirstFalse(bs) && i < |bs| && bs[i]
    ensures i < FirstFalse(bs)
  {
  }

  /** One cycle of the loop: get_quotes on page `i`, given the seen-set of
      the pages before it, succeeds when the page reads. Appending what it
      keeps to the de-duplicated records of the earlier pages gives the
      de-duplicated records of the pages up to and including `i`. Its new
      seen-set holds exactly the records of those pages. */
  lemma RunStep(pages: seq<Page>, i: nat, norm: string -> string)
    requires LoadsUpTo(pages, i, norm) && i < |pages|
    requires PageRecords(pages[i], norm).Ok?
    ensures LoadsUpTo(pages, i + 1, norm)
    ensures var before := Collected(pages, i, norm);
            var quotes := GetQuotes(pages[i], Elems(before), norm);
            && quotes.Ok?
            && Dedup.Firsts(before, {}) + quotes.value.kept
               == Dedup.Firsts(Collected(pages, i + 1, norm), {})
            && quotes.value.seen == Elems(Collected(pages, i + 1, norm))
  {
    var before := Collected(pages, i, norm);
    var page := PageRecords(pages[i], norm).value;
    assert LoadsUpTo(pages, i + 1, norm);
    assert Collected(pages, i + 1, norm) == before + page;
    Dedup.FirstsAppend(before, page, {});
    assert {} + Elems(before) == Elems(before);
    ElemsAppend(before, page);
  }

  /** The reference de-duplication never repeats a value. */
  lemma FirstsNoDup(s: seq<Record>)
    ensures NoDup(Dedup.Firsts(s, {}))
  {
    Dedup.FilterIsFirsts(s, {});
  }
}
