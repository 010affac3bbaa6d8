/** Input selection of compress_pdf_group.py (`get_ordered_pdfs`). */
module PdfInputs {
  import opened Strings
  import opened Sorting

  /** The name of the single bundled output (`OUTPUT_FILE`). */
  const OUTPUT_FILE: string := "Anlagen.pdf"

  /** The filter of the list comprehension: a PDF that is neither the output nor a scratch file. */
  predicate IsInputPdf(name: string)
  {
    EndsWith(name, ".pdf") && name != OUTPUT_FILE && !StartsWith(name, "temp_")
  }

  /** The comprehension over the directory listing, in listing order. */
  function SelectInputs(listing: seq<string>): seq<string>
  {
    if listing == [] then []
    else (if IsInputPdf(listing[0]) then [listing[0]] else []) + SelectInputs(listing[1..])
  }

  lemma {:induction false} SelectInputsCounts(listing: seq<string>, name: string)
    ensures multiset(SelectInputs(listing))[name] == if IsInputPdf(name) then multiset(listing)[name] else 0
    decreases |listing|
  {
    if listing != [] {
      SelectInputsCounts(listing[1..], name);
      assert listing == [listing[0]] + listing[1..];
    }
  }

  lemma StrLeIsTotalPreorder()
    ensures TotalPreorder(StrLe)
  {
    forall a, b ensures StrLe(a, b) || StrLe(b, a) {
      StrLeTotal(a, b);
    }
    forall a, b, c | StrLe(a, b) && StrLe(b, c) ensures StrLe(a, c) {
      StrLeTransitive(a, b, c);
    }
  }

  /**
   * `get_ordered_pdfs` over the directory listing: exactly the selected
   * names, each as often as the listing holds it, in ascending order.
   */
  function GetOrderedPdfs(listing: seq<string>): (pdfs: seq<string>)
    ensures forall name :: multiset(pdfs)[name] == if IsInputPdf(name) then multiset(listing)[name] else 0
    ensures Sorted(pdfs, StrLe)
  {
    StrLeIsTotalPreorder();
    SortBySorted(SelectInputs(listing), StrLe);
    forall name ensures multiset(SortBy(SelectInputs(listing), StrLe))[name]
                        == if IsInputPdf(name) then multiset(listing)[name] else 0 {
      SelectInputsCounts(listing, name);
    }
    SortBy(SelectInputs(listing), StrLe)
  }

  /** With a listing free of repeats (as a directory's is) the order is strictly ascending. */
  lemma OrderedPdfsStrictlyAscending(listing: seq<string>)
    requires forall i, j :: 0 <= i < j < |listing| ==> listing[i] != listing[j]
    ensures var pdfs := GetOrderedPdfs(listing);
      forall i, j :: 0 <= i < j < |pdfs| ==> StrLe(pdfs[i], pdfs[j]) && pdfs[i] != pdfs[j]
  {
    var pdfs := GetOrderedPdfs(listing);
    forall i, j | 0 <= i < j < |pdfs| ensures pdfs[i] != pdfs[j] {
      DistinctCountsAtMostOne(listing, pdfs[i]);
      if pdfs[i] == pdfs[j] {
        RepeatCountsTwice(pdfs, i, j);
        assert false;
      }
    }
  }

  lemma RepeatCountsTwice(s: seq<string>, i: nat, j: nat)
    requires i < j < |s| && s[i] == s[j]
    ensures multiset(s)[s[i]] >= 2
  {
    assert s == s[..i] + [s[i]] + s[i + 1..j] + [s[j]] + s[j + 1..];
  }

  lemma {:induction false} DistinctCountsAtMostOne(s: seq<string>, n: string)
    requires forall i, j :: 0 <= i < j < |s| ==> s[i] != s[j]
    ensures multiset(s)[n] <= 1
    decreases |s|
  {
    if s != [] {
      DistinctCountsAtMostOne(s[1..], n);
      assert s == [s[0]] + s[1..];
      if s[0] == n {
        assert n !in s[1..];
      }
    }
  }
}
