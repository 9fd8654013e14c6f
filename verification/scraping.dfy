/** One page of extraction: `Scraper.get_quotes` in run.py. The browser is
    abstracted away; a page is the list of "quote" elements it holds, each
    seen through the sub-elements get_quotes reads. */
module Scraping {
  import opened Seqs
  import Text
  import Dedup

  /** What the page offers for one "quote" element: the text of its first
      "text" and first "author" sub-element (None when there is none), and
      the texts of all its "tag" sub-elements in document order. */
  datatype RawRecord = RawRecord(text: Option<string>, author: Option<string>, tags: seq<string>)

  datatype Option<T> = None | Some(value: T)

  /** The record get_quotes builds; `author` is serialised under the key
      "by". Two records are the same de-duplication key exactly when they
      are equal, since sorted-keys JSON is injective on these fields. */
  datatype Record = Record(text: string, author: string, tags: seq<string>)

  /** The exceptions get_quotes lets escape. */
  datatype Fault =
    | ContentTimeout                            // no "quote" element within the wait
    | MissingElement(quote: nat, className: string)  // a quote lacks its "text" or "author"

  datatype Result<T> = Ok(value: T) | Err(fault: Fault)

  /** A record whose text carries no curly quotes. */
  predicate QuoteFree(rec: Record)
  {
    Text.OpenQuote !in rec.text && Text.CloseQuote !in rec.text
  }

  /** A quote element get_quotes can read without raising. */
  predicate Readable(raw: RawRecord)
  {
    raw.text.Some? && raw.author.Some?
  }

  /** The fault get_quotes raises on quote number `index`: "text" is looked
      up before "author". */
  function MissingFault(raw: RawRecord, index: nat): Fault
  {
    if raw.text.None? then MissingElement(index, "text") else MissingElement(index, "author")
  }

  /** The record of a readable quote element. `norm` is the text
      normalisation (normalize_text), applied to text and author; curly
      quotes are then stripped from the text only; tags are taken as they
      are, in order and with repeats. */
  function RecordOf(raw: RawRecord, norm: string -> string): (r: Record)
    requires Readable(raw)
    ensures QuoteFree(r)
    ensures multiset(r.text)
            == multiset(norm(raw.text.value))[Text.OpenQuote := 0][Text.CloseQuote := 0]
    ensures IsSubsequence(r.text, norm(raw.text.value))
    ensures r.author == norm(raw.author.value)
    ensures r.tags == raw.tags
  {
    Record(Text.StripQuotes(norm(raw.text.value)), norm(raw.author.value), raw.tags)
  }

  /** Read quote number `index`, raising if it is unreadable. */
  function BuildRecord(raw: RawRecord, index: nat, norm: string -> string): (r: Result<Record>)
    ensures r.Ok? <==> Readable(raw)
    ensures r.Ok? ==> r.value == RecordOf(raw, norm)
    ensures r.Err? ==> r.fault == MissingFault(raw, index)
  {
    match (raw.text, raw.author)
    case (None, _) => Err(MissingElement(index, "text"))
    case (_, None) => Err(MissingElement(index, "author"))
    case (Some(_), Some(_)) => Ok(RecordOf(raw, norm))
  }

  /** Every quote element of the page is readable. */
  predicate AllReadable(page: seq<RawRecord>)
  {
    forall i :: 0 <= i < |page| ==> Readable(page[i])
  }

  /** `recs` are the records of the page's quote elements, one for one. */
  predicate BuiltFrom(recs: seq<Record>, page: seq<RawRecord>, norm: string -> string)
    requires AllReadable(page)
  {
    |recs| == |page| && forall i :: 0 <= i < |page| ==> recs[i] == RecordOf(page[i], norm)
  }

  /** Quote number `i` is the first unreadable one. */
  predicate FirstUnreadable(page: seq<RawRecord>, i: nat)
  {
    i < |page| && !Readable(page[i]) && AllReadable(page[..i])
  }

  /** Reading one more readable quote extends the built records by its record. */
  lemma BuiltFromSnoc(recs: seq<Record>, page: seq<RawRecord>, rec: Record, raw: RawRecord, norm: string -> string)
    requires AllReadable(page) && Readable(raw)
    requires BuiltFrom(recs, page, norm) && rec == RecordOf(raw, norm)
    ensures AllReadable(page + [raw])
    ensures BuiltFrom(recs + [rec], page + [raw], norm)
  {
    var p := page + [raw];
    assert forall j :: 0 <= j < |page| ==> p[j] == page[j];
    assert AllReadable(p);
    var all := recs + [rec];
    assert forall j :: 0 <= j < |page| ==> all[j] == recs[j];
  }

  /** Build every record of a page in document order; the first unreadable
      quote aborts the whole page. */
  function BuildAll(page: seq<RawRecord>, norm: string -> string): (r: Result<seq<Record>>)
    ensures r.Ok? <==> AllReadable(page)
    ensures r.Ok? ==> BuiltFrom(r.value, page, norm)
    ensures r.Err? ==> exists i: nat :: FirstUnreadable(page, i) && r.fault == MissingFault(page[i], i)
    decreases |page|
  {
    if |page| == 0 then Ok([])
    else
      var i := |page| - 1;
      var earlier := page[..i];
      assert page == earlier + [page[i]];
      match BuildAll(earlier, norm)
      case Err(f) =>
        var k: nat :| FirstUnreadable(earlier, k) && f == MissingFault(earlier[k], k);
        assert earlier[k] == page[k] && earlier[..k] == page[..k];
        assert FirstUnreadable(page, k);
        Err(f)
      case Ok(prefix) =>
        match BuildRecord(page[i], i, norm)
        case Err(f) =>
          assert FirstUnreadable(page, i);
          Err(f)
        case Ok(rec) =>
          BuiltFromSnoc(prefix, earlier, rec, page[i], norm);
          Ok(prefix + [rec])
  }

  /** Every record built from a page has its curly quotes stripped. */
  lemma BuiltRecordsQuoteFree(recs: seq<Record>, page: seq<RawRecord>, norm: string -> string)
    requires AllReadable(page) && BuiltFrom(recs, page, norm)
    ensures forall rec :: rec in recs ==> QuoteFree(rec)
  {
    forall rec | rec in recs
      ensures QuoteFree(rec)
    {
      var i :| 0 <= i < |recs| && recs[i] == rec;
      assert rec == RecordOf(page[i], norm);
    }
  }

  /** The records of a page, or the fault reading it raises. The wait for
      a "quote" element times out exactly when the page has none. */
  function PageRecords(page: seq<RawRecord>, norm: string -> string): (r: Result<seq<Record>>)
    ensures r == Err(ContentTimeout) <==> |page| == 0
    ensures r.Ok? <==> |page| > 0 && AllReadable(page)
    ensures r.Ok? ==> BuiltFrom(r.value, page, norm)
    ensures r.Err? && |page| > 0 ==>
              exists i: nat :: FirstUnreadable(page, i) && r.fault == MissingFault(page[i], i)
  {
    if |page| == 0 then Err(ContentTimeout) else BuildAll(page, norm)
  }

  /** get_quotes: read the page, then keep the records not in `seen`, in
      document order, adding each kept one to the seen-set. */
  function GetQuotes(page: seq<RawRecord>, seen: set<Record>, norm: string -> string)
    : (r: Result<Dedup.Filtered<Record>>)
    ensures r.Ok? <==> PageRecords(page, norm).Ok?
    ensures r.Err? ==> r.fault == PageRecords(page, norm).fault
    ensures r.Ok? ==>
              var built := PageRecords(page, norm).value;
              && r.value.seen == seen + Elems(built)
              && Elems(r.value.kept) == Elems(built) - seen
              && NoDup(r.value.kept)
              && |r.value.seen| == |seen| + |r.value.kept|
              && r.value.kept == Dedup.Firsts(built, seen)
    ensures r.Ok? ==> forall rec :: rec in r.value.kept ==> QuoteFree(rec)
  {
    match PageRecords(page, norm)
    case Err(f) => Err(f)
    case Ok(built) =>
      var f := Dedup.Filter(built, seen);
      Dedup.FilterIsFirsts(built, seen);
      BuiltRecordsQuoteFree(built, page, norm);
      ElemsMembers(f.kept);
      ElemsMembers(built);
      Ok(f)
  }

  /** Returned records keep the relative order of their quote elements. */
  lemma GetQuotesKeepsOrder(page: seq<RawRecord>, seen: set<Record>, norm: string -> string)
    requires |page| > 0 && AllReadable(page)
    ensures IsSubsequence(GetQuotes(page, seen, norm).value.kept, PageRecords(page, norm).value)
  {
    Dedup.FilterKeepsOrder(PageRecords(page, norm).value, seen);
  }

  /** Extracting the same page again, with the seen-set the first
      extraction left, returns nothing and leaves the seen-set alone. */
  lemma GetQuotesIdempotent(page: seq<RawRecord>, seen: set<Record>, norm: string -> string)
    requires |page| > 0 && AllReadable(page)
    ensures var after := GetQuotes(page, seen, norm).value.seen;
            GetQuotes(page, after, norm) == Ok(Dedup.Filtered([], after))
  {
    Dedup.FilterIdempotent(PageRecords(page, norm).value, seen);
  }
}
