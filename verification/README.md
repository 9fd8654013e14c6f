# Quote scraper: per-page de-duplication and the pagination loop

This project models the logic of `run.py`, a Selenium script that walks
the pages of a quotes site, turns every "quote" element into a record
`{text, by, tags}`, drops records already seen in this run, and appends the
new ones to an output file, page by page, until there is no "next" button.

The browser is abstracted away. A page is the sequence of its "quote"
elements, each seen as a `RawRecord`: the text of its "text" and "author"
sub-elements (`None` when the element is missing) and the texts of its
"tag" sub-elements in document order. The site is a `Site`: the pages the
browser will show, and the answer `go_to_next_page` gives on each.

Modules:

- `Seqs`: element sets, repeat-freedom and subsequences of sequences.
- `Text`: the curly-quote stripping applied to a quote's text.
- `Dedup`: the seen-set filter, for any value type. `Filter` is the
  seen-set loop of `get_quotes`. `Firsts` is an independent reference
  definition: the values that occur for the first time and were not seen
  before. The two are proved equal.
- `Scraping`: record construction and `Scraper.get_quotes` (`GetQuotes`),
  including the faults it raises.
- `Pagination`: the `main` loop (`Scrape`), one pass of its body at a
  time (`Cycle`).

The de-duplication key in the source is `json.dumps(record, sort_keys=True)`.
That serialisation is injective on `(text, by, tags)`, so the model uses
structural equality of the `Record` datatype as the key. Tag order matters
and repeated tags are kept. The JSON key `by` is the field `author`,
because `by` is a Dafny keyword.

`normalize_text` (NFKD normalisation, then dropping non-ASCII characters)
is a parameter `norm: string -> string`. It is applied to text and author,
as in the source, and the model assumes nothing about it. With the real
`normalize_text` the curly quotes are already gone before they are
stripped. The model does not rely on that.

On its error paths the code behaves as follows:

- The wait for a "quote" element succeeds exactly when the page has at
  least one. A page without any raises a timeout and ends the run
  (`ContentTimeout`).
- A quote element without a "text" or "author" sub-element makes
  `find_element_by_class_name` raise, which ends the run
  (`MissingElement`). The "text" element is looked up first. The
  exception names only the missing class; the quote's position on the
  page, which `MissingElement` also carries, is the model's way of saying
  which quote raised.
- `go_to_next_page` only catches the failure to find the button. The
  browser is not closed when a fault ends the run.

## Model

| member | source | states |
|---|---|---|
| Text.RemoveChar | run.py:84 | `s.replace(c, '')` removes every `c` and nothing else: `c` is absent from the result, every other character keeps its count, and the result is a subsequence of the input |
| Text.StripQuotes | run.py:84 | after stripping, the text contains neither curly quote, every other character keeps its count, and the remaining characters keep their order: the result is the input with exactly the curly quotes deleted |
| Text.StripQuotesIdentity | run.py:84 | text without curly quotes passes through unchanged |
| Text.StripQuotesIdempotent | run.py:84 | stripping twice gives the same text as stripping once |
| Scraping.RecordOf | run.py:82-91 | a readable quote's record has quote-free text that is exactly the normalised text with its curly quotes deleted, the other characters in their original order; the normalised author (not quote-stripped) and the tags unchanged: same order, repeats kept |
| Scraping.BuildRecord | run.py:82-86 | reading a quote succeeds exactly when it has both a "text" and an "author" element; otherwise the fault names the missing element, "text" first, and carries the quote's position |
| Scraping.BuildAll | run.py:77-91 | all quotes of a page build exactly when each is readable; the records then match the quotes one for one, in order; otherwise the fault is that of the first unreadable quote |
| Scraping.BuiltRecordsQuoteFree | run.py:84 | no record built from a page has a curly quote in its text |
| Scraping.PageRecords | run.py:73-77 | reading a page times out exactly when the page has no quote element, and succeeds exactly when it has some and all are readable |
| Scraping.GetQuotes | run.py:71-98 | get_quotes fails exactly when reading the page fails. Otherwise: the new seen-set is the old one plus every record of the page; the returned records are exactly the page's records not seen before, without repeats, as their first occurrences in document order; the seen-set grows by exactly the number returned; no returned text has a curly quote |
| Scraping.GetQuotesKeepsOrder | run.py:80-97 | returned records keep the relative order of their quote elements |
| Scraping.GetQuotesIdempotent | run.py:95-97 | extracting the same page again with the updated seen-set returns nothing and leaves the seen-set unchanged |
| Dedup.Filter | run.py:95-97 | the seen-set filter: the new seen-set is the old one plus the input; the kept values are exactly the input values not seen before; none is kept twice; the set grows by the number kept |
| Dedup.FilterIsFirsts | run.py:80-97 | the seen-set filter keeps exactly the values at their first occurrence that were not seen before, in input order |
| Dedup.FilterAppend | run.py:95-97 | filtering two pieces one after the other, carrying the seen-set across, is the same as filtering their concatenation |
| Dedup.FirstsAppend | run.py:133-138 | the first-occurrence reference splits over a concatenation, the second part measured against the first part's values |
| Dedup.FilterKeepsOrder | run.py:80-97 | kept values form a subsequence of the input |
| Dedup.FilterKeepsNothing | run.py:95-97 | a pass keeps nothing exactly when every input value is already in the seen-set, and then the seen-set is unchanged |
| Dedup.FilterIdempotent | run.py:95-97 | a second pass over the same input with the resulting seen-set keeps nothing and changes nothing |
| Pagination.FirstFalse | run.py:140-141 | the loop stops at the first "no next page" answer: the index found holds `false` and every earlier answer is `true` |
| Pagination.Scrape | run.py:122-145 | the run starts with an empty seen-set and extracts each page before asking for the next. If the N-th next-page answer is the first `false`, a fault-free run makes exactly N extractions and N next-page queries. Its output is then the order-preserving de-duplication of all records of those N pages. If reading page k raises, the run stops after k+1 extractions and k queries, and the output holds exactly the de-duplicated records of the pages before k. The output never holds a record twice |
| Pagination.Cycle | run.py:133-141 | one pass of the loop on page i: if reading the page raises, the pass stops the run with that fault and appends nothing; otherwise the output becomes the de-duplicated records of pages 0..i and the seen-set holds all their records; the run stops as exhausted exactly when page i is the first without a next page, and goes on otherwise |
| Pagination.RunStep | run.py:133-138 | on a page that reads, get_quotes with the seen-set of the earlier pages succeeds; appending what it keeps to the de-duplicated records of those pages gives the de-duplicated records of pages 0..i; the new seen-set is exactly the records of pages 0..i |
| Pagination.FirstsNoDup | run.py:133-141 | the de-duplicated output of a run has no repeated record |

## Left out

- Selenium: creating the driver, `driver.get`, the timeout lengths of the
  two waits, element lookups, scrolling and clicking. A page is its given
  list of quote elements, and a timeout is modelled as "no quote element".
- `normalize_text` (run.py:52-56) is a parameter, because Unicode NFKD
  normalisation and ASCII encoding are not available to the model.
- `go_to_next_page` (run.py:101-112) is an oracle of booleans. A fault
  raised by scrolling to or clicking the button is not modelled.
- Pagination.Scrape requires that some page answers "no next page". On a
  site that always offers a next page and whose pages all read, the source
  loops forever; that run is not modelled. A run that a fault ends earlier
  is modelled: put a "no" at or after the failing page, since the answers
  after it are never asked for.
- Pagination.Scrape does not model the seen-set entries that `get_quotes`
  has already added on a page when a later quote on the same page raises.
  The run ends at that point, so nothing observes them.
- Output format: both the sorted-keys key and the written JSON line are the
  `Record` value itself. File opening, appending and flushing are not
  modelled; the output is the sequence of appended records.
- Environment variables, `dotenv`, the proxy settings, logging, the `tqdm`
  progress bar and `close_browser` are configuration and I/O.
