/** Character-level clean-up applied to a quote's text (run.py, get_quotes). */
module Text {
  import Seqs

  /** The typographic quotation marks the page wraps every quote in. */
  const OpenQuote: char := '\U{201C}'
  const CloseQuote: char := '\U{201D}'

  /** `s` with every occurrence of `c` deleted: Python's `s.replace(c, '')`. */
  function RemoveChar(s: string, c: char): (r: string)
    ensures c !in r
    ensures multiset(r) == multiset(s)[c := 0]
    ensures Seqs.IsSubsequence(r, s)
    decreases |s|
  {
    if |s| == 0 then []
    else
      assert s == [s[0]] + s[1..];
      var rest := RemoveChar(s[1..], c);
      if s[0] == c then rest else [s[0]] + rest
  }

  /** Removing a character that does not occur changes nothing. */
  lemma {:induction false} RemoveAbsentChar(s: string, c: char)
    requires c !in s
    ensures RemoveChar(s, c) == s
    decreases |s|
  {
    if |s| > 0 {
      RemoveAbsentChar(s[1..], c);
      assert s[0] != c;
      assert RemoveChar(s, c) == [s[0]] + RemoveChar(s[1..], c);
      assert s == [s[0]] + s[1..];
    }
  }

  /** The text clean-up: delete opening, then closing, curly quotes. The
      result is exactly the input with both quote characters deleted and the
      remaining characters in their original order. */
  function StripQuotes(s: string): (r: string)
    ensures OpenQuote !in r && CloseQuote !in r
    ensures multiset(r) == multiset(s)[OpenQuote := 0][CloseQuote := 0]
    ensures Seqs.IsSubsequence(r, s)
  {
    var once := RemoveChar(s, OpenQuote);
    var r := RemoveChar(once, CloseQuote);
    assert multiset(r)[OpenQuote] == multiset(once)[OpenQuote] == 0;
    Seqs.SubsequenceTransitive(r, once, s);
    r
  }

  /** Text without curly quotes passes through unchanged, so stripping is
      idempotent. */
  lemma StripQuotesIdentity(s: string)
    requires OpenQuote !in s && CloseQuote !in s
    ensures StripQuotes(s) == s
  {
    RemoveAbsentChar(s, OpenQuote);
    RemoveAbsentChar(s, CloseQuote);
  }

  lemma StripQuotesIdempotent(s: string)
    ensures StripQuotes(StripQuotes(s)) == StripQuotes(s)
  {
    StripQuotesIdentity(StripQuotes(s));
  }
}
